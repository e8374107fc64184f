# cutil and cotave, modelled in Dafny

Models of the library's arithmetic, concurrency, transforms, codes and containers, with
proofs of what they promise. Each class whose methods update fields is a class here with
the same fields and loops, proved against specification functions; threads are state
machines whose steps are the atomic actions of the code; the laws are lemmas about all
inputs, all runs or all reachable states.

| group | modules |
|---|---|
| number theory and RSA | `NumberTheory`, `RSA` |
| big integers | `Limbs`, `LimbDivision`, `IntXModule`, `IntXText`, `IntXBits` |
| FFT over exact complex numbers | `ComplexNumbers`, `Transform`, `BitReversal`, `FFTModule` |
| polynomials and the Butterworth filter over exact reals | `PolynomialAlgebra`, `PolynomialModule`, `BilinearTransform`, `ButterworthFilterModule`, `ButterworthPoles` |
| log writers and threads | `FileWriteProxy`, `CLog`, `CLogConservation`, `CLogClosing`, `CLogRotation`, `ThreadStart`, `ThreadStartRace`, `LoopThread` |
| codes | `CamelliaRotation`, `CamelliaSpec`, `CamelliaRoundFunction`, `CamelliaBuffers`, `CamelliaCipherModule`, `CamelliaKeySchedule`, `SHA256Spec`, `SHA256Words`, `SHA256Constants`, `SHA256Example`, `SHA256Module`, `CRCDivision`, `CRCBytes`, `ByteConversion`, `CRCTableRows`, `CRC8Table`, `CRC16Table`, `CRC32Table`, `CRC32CTable`, `CRCModule` |
| reading and containers | `ConfigFileReaderModule`, `OrderedEntries`, `HashMapModule`, `Morton`, `OctreeModule` |

## Where the code differs from its intent

The model follows the code. The members named show an input or a run with the difference,
and where one says "iff" also exactly when the code does as intended.

- The borrow in `absSub` (misc/intX_t.ipp:175 and 188) becomes 2 for a column difference of
  exactly -10^18: `Limbs.SubLimbsExactIff`, `Limbs.DoubleBorrowWitness`. It spoils
  divisions: `LimbDivision.ExactIff`, `LimbDivision.WrongRemainder`.
- Division of negative numbers: `IntXModule.DivisionLawIff`,
  `IntXModule.DivisionMagnitudesIff`.
- `&=`, `|=` and `^=` shift the new bytes in behind the old value: `IntXBits.OutcomeIff`.
  Negative operands: `IntXBits.NegativeOutcome`.
- The parser consumes a leading minus without effect: `IntXText.ParsePrintIff`. Unary minus
  and products with zero make a negative zero, which == tells apart: `Negate`, `Multiply`,
  `Equals`. Two different negative numbers compare the wrong way round: `LessEqual`,
  `GreaterEqual`.
- `POWMOD` returns the base for exponents below 1: `RSA.PowModIffPower`.
- `FERMATCHECK` accepts the pseudoprime 1387, `RSA.FermatAcceptsComposite`; which composites
  it accepts is no simpler to say than its own test. Of primes it accepts those above 17.
- The loop meant to make d nonnegative compares the pointer (misc/RSACipher.ipp:130), and e
  is not coprime to L when 143 divides L: `RSA.Generate`, `RSA.CoefficientSign`,
  `RSA.NegativeKey`, `RSA.UnusableExponent`.
- The filter's denominator loses its highest coefficient for odd orders at a = 1:
  `BilinearTransform.DenominatorLength`.
- `end()` adds a block for lengths 55 modulo 64 (misc/SHA256.ipp:99): `SHA256Spec.PaddingIff`.
- `check` of CRC_32C rejects the value of every message: `CRCModule.OwnRejected32C`.
- `start(Functor)` keeps a pointer to its own parameter, although core/Thread.h:127 says the
  functor is copied: `ThreadStart.SafeOverloadIff`, `ThreadStart.FunctorMayBeGone`. Two
  overlapping calls of start() share one flag: `ThreadStartRace.OverlapReadsDeadFrame`.
  `stopFlag` is never cleared: `LoopThread.EachRunsIff`.
- A write that overlaps `CLog::close` can be accepted and lost, because isOpen() is tested
  outside the mutex (logging/CLog.ipp:171-182): `CLogClosing.ClosedLogIff`,
  `CLogClosing.OverlappingWriteIsLost`.
- `%include` of a name of one character is ignored (misc/ConfigFileReader.ipp:69-99):
  `ConfigFileReaderModule.IncludeIff`, `ConfigFileReaderModule.ShortIncludeIgnored`.
- `HashMap::begin` of an empty map is not `end`: `HashMapModule.HashMap.Begin`.
- `assignInstance(level, ...)` loses the level of cells whose top digit is zero:
  `Morton.LevelKeptIff`.

## Model

| member | source | states |
|---|---|---|
| `NumberTheory.FermatLittle` | misc/RSACipher.ipp:55-63 | Fermat's little theorem, a^(p-1) = 1 modulo a prime p that does not divide a, proved from the binomial theorem: what the primality filter tests for a = 2 |
| `NumberTheory.ProductDivides` | misc/RSACipher.ipp:109-145 | Chinese remaindering for two distinct primes: what both divide, their product divides |
| `NumberTheory.NonRoot` | misc/RSACipher.ipp:109-145 | for a prime p and 0 < k < p - 1 some residue x has x^k other than 1 (Lagrange's bound on roots), which makes a power map that is not one-to-one in the cases where no d can decrypt |
| `RSA.PowMod` | misc/RSACipher.ipp:36-53 | the square-and-multiply loop returns a^b mod m for b >= 1 and a mod m below |
| `RSA.PowModIffPower` | misc/RSACipher.ipp:36-53 | that is the power exactly when b >= 1 or a and 1 agree modulo m |
| `RSA.FermatCheck` | misc/RSACipher.ipp:55-63 | the filter accepts x exactly when no prime up to 17 divides it and 2^(x-1) is 1 modulo x |
| `RSA.FermatAcceptsPrimes` | misc/RSACipher.ipp:55-63 | a prime is accepted if and only if it is above 17 |
| `RSA.FermatAcceptsComposite` | misc/RSACipher.ipp:55-63 | acceptance is not primality: 1387 = 19 * 73 passes |
| `RSA.ExtendedEuclid` | misc/RSACipher.ipp:116-127 | the division loop keeps both linear combinations, ends with the gcd and returns its Bezout coefficients |
| `RSA.LCM` | misc/RSACipher.ipp:18-34 | the Euclid loop of LCM returns a*b/gcd(a,b) |
| `RSA.LcmIsLeast` | misc/RSACipher.ipp:18-34 | and that is the least common multiple: both divide it and it divides every common multiple |
| `RSA.PublicExponentCoprime` | misc/RSACipher.ipp:113-113 | the choice of e (13 if 11 divides L, else 11) is coprime to L exactly when 143 does not divide L |
| `RSA.Generate` | misc/RSACipher.ipp:75-133 | n, e and d for two primes the filter accepts; d is the coefficient the loop ends with, and the key decrypts every message exactly when p and q differ, L has a residue (modulo 11, or 13) for which the loop ends positive, and 143 does not divide L: all of it can be read off the primes |
| `RSA.CoefficientSign` | misc/RSACipher.ipp:116-132 | the d that the division loop ends with is at least 1 exactly for the residues 2, 5, 7, 8, 10 of L modulo 11 when e is 11, and 0, 2, 3, 4, 5, 6, 12 modulo 13 when e is 13 |
| `RSA.NegativeKey` | misc/RSACipher.ipp:109-132 | the primes 19 and 37 give d = -13 and a key that does not decrypt |
| `RSA.UnusableExponent` | misc/RSACipher.ipp:109-132 | the primes 23 and 53 give an L that 143 divides: with e = 13 no d decrypts |
| `RSA.Cipher` | misc/RSACipher.ipp:135-145 | the cipher is m^e mod n by the modelled loop |
| `RSA.RsaRoundTrip` | misc/RSACipher.ipp:109-145 | RFC 8017, sections 5.1.1 and 5.1.2: for distinct primes and e*d = 1 modulo L, decryption undoes encryption for every message below n, also those not coprime to n |
| `RSA.EqualPrimesFail` | misc/RSACipher.ipp:75-133 | p = q: some message is not recovered |
| `RSA.NonPositiveExponentFails` | misc/RSACipher.ipp:129-132 | a key whose d was not made positive does not decrypt: the loop meant to do that compares the pointer |
| `RSA.ThirteenthPowerFails` | misc/RSACipher.ipp:113-113 | if e = 13 divides p - 1 no d decrypts |
| `RSA.RoundTripIff` | misc/RSACipher.ipp:75-145 | whatever d solves the key equation modulo L, the key decrypts every message if and only if p != q, d >= 1 and 143 does not divide L |
| `RSA.NormalisedKeyIff` | misc/RSACipher.ipp:129-132 | with d reduced into 1..L, as the loop intends, the condition on d disappears |
| `Limbs.AddLimbsVal` | misc/intX_t.ipp:124-157 | column addition with carry adds the values and keeps every limb below 10^18 |
| `Limbs.SubLimbsExactIff` | misc/intX_t.ipp:159-199 | column subtraction is exact if and only if no column difference is exactly -10^18 |
| `Limbs.BorrowTwoIsWrong` | misc/intX_t.ipp:175-188 | the borrow of 2 that such a column produces always spoils the result |
| `Limbs.DoubleBorrowWitness` | misc/intX_t.ipp:159-199 | a three-limb subtraction that comes out wrong |
| `Limbs.ValUnique` | misc/intX_t.ipp:83-98 | limbs in range without a zero on top are determined by the value: the canonical form |
| `Limbs.LongerIsGreater` | misc/intX_t.ipp:101-122 | more limbs mean a greater number, the first test of the comparison |
| `Limbs.DoubleVal` | misc/intX_t.ipp:288-307 | one pass of the left shift doubles and stays canonical |
| `Limbs.HalfVal` | misc/intX_t.ipp:268-286 | one pass of the right shift halves, rounding down |
| `IntXModule.IntX.FromInteger` | misc/intX_t.ipp:386-403 | one or two limbs for a machine integer, from -2^63 to 2^64 - 1, with its value and sign |
| `IntXModule.IntX.EraseTopZero` | misc/intX_t.ipp:83-98 | zero limbs on top go, and zero becomes positive |
| `IntXModule.IntX.AbsNoless` | misc/intX_t.ipp:101-122 | the comparison from the top limb down, for any limbs; in canonical form it decides whether one magnitude is at least the other |
| `IntXModule.IntX.AbsAdd` | misc/intX_t.ipp:124-157 | the in-place addition equals the column addition, for every aliasing of result and operands and without leaving int64 |
| `IntXModule.IntX.AbsSub` | misc/intX_t.ipp:159-199 | the same for the in-place subtraction, borrow of 2 included, also on limbs that earlier subtractions left below zero |
| `IntXModule.IntX.ShiftLeft` | misc/intX_t.ipp:288-307 | multiplies the magnitude by 2^x |
| `IntXModule.IntX.ShiftRight` | misc/intX_t.ipp:268-286 | floor division of the magnitude by 2^x |
| `IntXModule.IntX.AddAssign` | misc/intX_t.ipp:476-489 | signed +=, also of an object to itself: the exact sum if and only if the signs agree or the subtraction of magnitudes has no bad column |
| `IntXModule.IntX.SubAssign` | misc/intX_t.ipp:491-508 | signed -=, exact under the mirrored condition |
| `IntXModule.IntX.Add` | misc/intX_t.ipp:416-433 | signed +, exact under the same condition and then canonical |
| `IntXModule.IntX.Subtract` | misc/intX_t.ipp:435-455 | signed -, exact under the mirrored condition |
| `IntXModule.IntX.Negate` | misc/intX_t.ipp:545-549 | unary minus gives the opposite value; only the negation of plain zero is not canonical |
| `IntXModule.IntX.Equals` | misc/intX_t.ipp:612-632 | == is equality of values exactly unless a zero meets a negative zero |
| `IntXModule.IntX.LessEqual` | misc/intX_t.ipp:640-648 | what <= returns, and that it is the order of the values unless both operands are negative and differ |
| `IntXModule.IntX.GreaterEqual` | misc/intX_t.ipp:650-658 | what >= returns, and that it is the order of the values under the same condition |
| `IntXModule.IntX.AbsMul` | misc/intX_t.ipp:201-220 | double-and-add gives the product of the magnitudes, also into one of its operands, wherever the loop does not read the lowest limb of a negative zero |
| `IntXModule.IntX.Multiply` | misc/intX_t.ipp:457-462 | the exact signed product; canonical except for zero times a number of the other sign |
| `IntXModule.IntX.MulAssign` | misc/intX_t.ipp:510-515 | the exact signed product in place |
| `LimbDivision.ExtrasVal` | misc/intX_t.ipp:159-199 | on any limbs the subtraction loop leaves the difference plus an error of -1 for each borrow of 2 and the borrow nobody takes on top |
| `LimbDivision.SafeIsExact` | misc/intX_t.ipp:222-266 | a division whose subtractions meet no bad column is exact, whatever its size |
| `LimbDivision.LostStaysLost` | misc/intX_t.ipp:243-261 | after one bad column the errors never cancel: the quotient or the remainder ends wrong |
| `LimbDivision.ExactIff` | misc/intX_t.ipp:222-266 | quotient and remainder are right if and only if no subtraction of the division meets a bad column |
| `LimbDivision.SmallIsSafe` | misc/intX_t.ipp:222-266 | divisions of numbers below 10^36 meet none |
| `LimbDivision.CleanIsSafe` | misc/intX_t.ipp:222-266 | nor does a division for which no den * 2^k up to num has a limb 10^18 - 1 above its lowest one, which can be tested beforehand |
| `LimbDivision.WrongRemainder` | misc/intX_t.ipp:222-266 | 10^36 by 10^36 - 10^18 + 1 gives the quotient 1 and a remainder greater than the dividend |
| `LimbDivision.NegDivision` | misc/intX_t.ipp:222-266 | two negative numbers: the remainder changes its sign when it reaches zero, and the quotient comes out right exactly unless the division is even with an even quotient |
| `IntXModule.IntX.AbsDiv` | misc/intX_t.ipp:222-266 | both loops, in place and for all signs that let them end: quotient and remainder come out as the limb division leaves them, right or wrong |
| `IntXModule.DivisionLawIff` | misc/intX_t.ipp:464-474 | num = (num / den) * den + num % den exactly when num is not negative, or both are negative and nothing is left |
| `IntXModule.DivisionMagnitudesIff` | misc/intX_t.ipp:464-474 | when quotient and remainder are those of the magnitudes, for every combination of signs |
| `IntXModule.IntX.DivMod` | misc/intX_t.ipp:464-474 | / and %: exact for a nonnegative dividend and a positive divisor if, and for quotients of at most 10^18 / 4 bits only if, no subtraction is bad |
| `IntXText.InitByString` | misc/intX_t.ipp:54-81 | decimal, octal and hexadecimal input is read as its positional value; a leading minus has no effect |
| `IntXText.ParseIsPositional` | misc/intX_t.ipp:54-81 | the text after "0x" has its positional value to base 16, after another "0" to base 8, and otherwise to base 10 |
| `IntXText.DigitValues` | misc/intX_t.ipp:15-25 | digits count from zero, letters of either case from ten, and anything else is zero |
| `IntXText.ToString` | misc/intX_t.ipp:660-676 | output of the limbs in decimal, lower limbs padded to 18 digits |
| `IntXText.TextIsDecimal` | misc/intX_t.ipp:660-676 | it consists of decimal digits behind a minus for negative numbers, without a leading zero unless it is "0" |
| `IntXText.ParsePrintIff` | misc/intX_t.ipp:54-81 | reading printed output gives the magnitude back, and the number exactly when it is not negative |
| `IntXText.ToBinArray` | misc/intX_t.ipp:309-320 | the byte loop for every number, with the low byte of each remainder; the base-256 digits when the divisions are safe |
| `IntXText.SmallBytes` | misc/intX_t.ipp:309-320 | which they are below 10^36 |
| `IntXText.CleanBytes` | misc/intX_t.ipp:309-320 | and for every number up to which no power of two from 256 on has a limb 10^18 - 1 above its lowest one |
| `IntXText.NegativeBytes` | misc/intX_t.ipp:309-320 | a negative number leaves one byte, that of its magnitude modulo 256 |
| `IntXText.ToHexString` | misc/intX_t.ipp:701-716 | two hexadecimal digits for each byte, highest first, for every number |
| `IntXText.HexIsLower` | misc/intX_t.ipp:701-716 | the digits are 0 to 9 and a to f, two a byte |
| `IntXText.ParseHex` | misc/intX_t.ipp:701-716 | reading "0x" and that text gives the number back |
| `IntXBits.BitwiseBit` | misc/intX_t.ipp:551-567 | every bit of the integer operation is the operation on the operands' bits |
| `IntXBits.BitwiseSums` | misc/intX_t.ipp:27-47 | and + or = a + b, and xor + 2 and = a + b: which operation is which |
| `IntXBits.ZipIsBitwise` | misc/intX_t.ipp:322-359 | combining base-256 digits one by one, the shorter operand extended with zeros, is the integer operation |
| `IntXBits.BitOperation` | misc/intX_t.ipp:322-359 | the byte loops, for operands of any sign and any result object: what it held stays in front of the new bytes |
| `IntXBits.OutcomeIff` | misc/intX_t.ipp:569-582 | on safe nonnegative operands the outcome is the bit operation if and only if the result object held zero |
| `IntXBits.NegativeOutcome` | misc/intX_t.ipp:551-567 | on two negative operands only the low bytes of the magnitudes are combined |
| `IntXBits.BitOperator` | misc/intX_t.ipp:551-567 | &, | and ^ return the bit operation on nonnegative integers |
| `IntXBits.BitAssign` | misc/intX_t.ipp:569-582 | &=, |= and ^= do so if and only if the left operand is zero |
| `BitReversal.RevInvolution` | cotave/FFT.ipp:9-31 | reversing an index twice gives the index back |
| `BitReversal.ReverseIndex` | cotave/FFT.ipp:9-31 | the inner loop with its two masks computes the reversed index |
| `BitReversal.ShuffledAt` | cotave/FFT.ipp:9-31 | bit reversal is the even-odd decimation applied down to single elements |
| `BitReversal.BitReverse` | cotave/FFT.ipp:9-31 | the in-place swaps leave the shuffled input |
| `Transform.DftIsSum` | cotave/FFT.ipp:46-74 | the transform is the sum of x[j] * w^(j*k) |
| `Transform.Butterfly` | cotave/FFT.ipp:62-71 | a transform of size 2h from two of size h |
| `Transform.LevelBlock` | cotave/FFT.ipp:51-73 | after stage s every aligned block holds the transform of its decimated subsequence |
| `Transform.LevelHalves` | cotave/FFT.ipp:51-73 | before a stage, the transforms of both halves |
| `Transform.DftInverse` | cotave/FFT.ipp:201-207 | transforming back with the inverse root multiplies by the size |
| `FFTModule.FFT.CalculateBlock` | cotave/FFT.ipp:62-71 | the butterfly loop, in place, with the running twiddle factor |
| `FFTModule.FFT.Calculate` | cotave/FFT.ipp:46-74 | bit reversal and all stages, in place: the DFT with the given root, or with its inverse |
| `FFTModule.FFT.FromReals` | cotave/FFT.ipp:76-83 | the constructor for real input leaves its DFT |
| `FFTModule.FFT.FromComplex` | cotave/FFT.ipp:36-43 | the constructor for complex input leaves the transform with the inverse root, as the code calls it |
| `FFTModule.FFT.Inverted` | cotave/FFT.ipp:200-207 | IFFT leaves the inverse transform divided by the size |
| `FFTModule.InverseTransformIdentity` | cotave/FFT.ipp:200-207 | IFFT of the transform is the input, for every size 2^e and input |
| `FFTModule.FFT.Normalize` | cotave/FFT.ipp:149-159 | what normalize changes, once |
| `FFTModule.FFT.Denormalize` | cotave/FFT.ipp:161-171 | what denormalize changes, once |
| `FFTModule.NormalizeRoundTrip` | cotave/FFT.ipp:149-171 | denormalize undoes normalize |
| `FileWriteProxy.StepKeepsInv` | misc/FileWriteProxy.ipp:14-43 | every step of consumer, writers and closer keeps mutual exclusion and loses no wakeup |
| `FileWriteProxy.StepKeepsContent` | misc/FileWriteProxy.ipp:14-43 | file and queue together only grow, by the byte a writer pushes |
| `FileWriteProxy.ExitsEmpty` | misc/FileWriteProxy.ipp:20-28 | the consumer exits only when stopped and with an empty queue |
| `FileWriteProxy.RunConserves` | misc/FileWriteProxy.ipp:14-97 | over every interleaving the file followed by the queue holds what the file held and then every accepted byte, once and in lock order |
| `FileWriteProxy.NeverStuck` | misc/FileWriteProxy.ipp:14-43 | no reachable state is stuck with work to do |
| `FileWriteProxy.ShutdownDrains` | misc/FileWriteProxy.ipp:69-86 | after the stop request the consumer, alone, writes everything and exits |
| `FileWriteProxy.ShutdownBounded` | misc/FileWriteProxy.ipp:69-86 | in every run after the stop request in which no writer gets in, the consumer takes a bounded number of steps, is never stuck, and has written everything when it exits: the join in close returns |
| `CLog.RenameTargetFree` | logging/CLog.ipp:73-98 | no rename overwrites a file, and a new file is never opened over an old one |
| `CLog.StepKeepsInv` | logging/CLog.ipp:54-182 | every step of clients, rotator, closer and consumers keeps the invariant of the log |
| `CLogRotation.RotatesIff` | logging/CLog.ipp:64-71 | without a stop request the rotator goes on to rotate if and only if it was told to rotate at first or the file has reached the size; otherwise it sleeps and nothing has changed but the mutex |
| `CLogRotation.RotationShifts` | logging/CLog.ipp:73-98 | in every run of a rotation each file below the first free suffix moves up by one, the current file becomes suffix 0, a new empty file is current and the request to rotate at first is gone; the rotator is never stuck on the way and takes at most 2m + 3 steps for the first free suffix m |
| `CLogRotation.FirstFreeExists` | logging/CLog.ipp:74-84 | there is a first free suffix, which is where the listing stops |
| `CLogConservation.StepKeepsText` | logging/CLog.ipp:54-103 | every step leaves the text read from the oldest file to the current one, or appends the accepted byte |
| `CLogConservation.StepAccepts` | logging/CLog.ipp:171-182 | the accepted messages, and the pushed part of the one being written, grow by the same byte |
| `CLogConservation.LogConserved` | logging/CLog.ipp:54-182 | over every interleaving the files, oldest first, each with its queue, hold the earlier log and then every accepted message once, whole and in order |
| `CLogConservation.AtMostTwoWriters` | logging/CLog.ipp:95-101 | at most the current writer and the one being replaced are live |
| `CLogClosing.ClosedLog` | logging/CLog.ipp:144-182 | after close(), over every interleaving with writers, the files and behind them the bytes pushed too late are the earlier log and every message, once and in order |
| `CLogClosing.ClosedLogIff` | logging/CLog.ipp:144-182 | the files alone hold all of it if and only if every write got the lock of the proxy before the proxy's consumer had exited |
| `CLogClosing.QuietCloseKeepsAll` | logging/CLog.ipp:144-162 | which is so when none gets it after close() has turned to the current proxy |
| `CLogClosing.OverlappingWriteIsLost` | logging/CLog.ipp:144-182 | a run of a write that tested isOpen() in time, was accepted and is in no file |
| `CLogClosing.StopFindsIdle` | logging/CLog.ipp:144-155 | the stop request finds the rotator between two rotations |
| `CLogClosing.RotatorEnds` | logging/CLog.ipp:144-162 | the rotator returns within three steps of its own after the stop request, and is never asleep with the mutex free: the first join of close() returns |
| `ThreadStart.StepKeepsInv` | core/Thread.ipp:100-141 | the handshake invariant: mutual exclusion, the frame lives while the thread may read it, no lost wakeup |
| `ThreadStart.StartReturnsAfterCopy` | core/Thread.ipp:113-141 | start() returns true only when the new thread has copied the holder of this very call, and the copy never reads a dead frame |
| `ThreadStart.RunKeepsInv` | core/Thread.ipp:100-141 | over every run, with any number of starts one after the other, each success stands for one thread made |
| `ThreadStart.NeverStuck` | core/Thread.ipp:113-141 | a waiting start() can always go on without a spurious wakeup |
| `ThreadStart.WaitIsBounded` | core/Thread.ipp:136-138 | and its wait is bounded |
| `ThreadStart.TargetIff` | core/Thread.ipp:113-192 | in every state of every run the functor the thread will call lives exactly unless start(Functor) was called and has returned |
| `ThreadStart.SafeOverloadIff` | core/Thread.ipp:185-192 | no run of calls of one overload makes a thread call a functor that is gone if and only if the overload does not take it by value |
| `ThreadStart.FunctorMayBeGone` | core/Thread.ipp:185-192 | a run in which start(Functor) has returned true, with the parameter its Holder points to gone, before the thread calls it, although core/Thread.h:127 says the functor is copied |
| `ThreadStartRace.SerialCallsAreSafe` | core/Thread.ipp:100-141 | two calls of start() on one object that do not overlap: in every run both threads read live frames |
| `ThreadStartRace.RunExcludes` | core/Thread.ipp:100-141 | in every run of two calls, overlapping or not, at most one of the callers and their threads is inside the critical section |
| `ThreadStartRace.OverlapReadsDeadFrame` | core/Thread.ipp:113-141 | two that do, which the unlocked test of isRunning() admits: a run in which one returns true before its thread has read its frame |
| `LoopThread.StepKeepsInv` | core/Thread.ipp:430-487 | every step of the loop and of stop, suspend and resume keeps the invariant |
| `LoopThread.RunObeys` | core/Thread.ipp:430-487 | over every run headFunc comes once and first, tailFunc once and last, at most one eachLoop starts after stop and at most one in a suspension |
| `LoopThread.StopEnds` | core/Thread.ipp:430-467 | after stop the worker takes a bounded number of steps, is never asleep outside a control call and ends with tailFunc |
| `LoopThread.ResumeWakes` | core/Thread.ipp:469-477 | resume always wakes a suspended worker |
| `LoopThread.RestartIsEmpty` | core/Thread.ipp:459-467 | nothing clears the stop flag: a thread started again runs headFunc and tailFunc only |
| `LoopThread.EachRunsIff` | core/Thread.ipp:430-487 | a started thread has a run that reaches eachLoop if and only if the stop flag was clear |
| `ConfigFileReaderModule.PushRound` | misc/ConfigFileReader.ipp:69-99 | opening an include makes the measure fall, because names on the stack stay distinct |
| `ConfigFileReaderModule.IncludeIff` | misc/ConfigFileReader.ipp:69-99 | a file that includes another reads as that one exactly when the name has more than one character |
| `ConfigFileReaderModule.ShortIncludeIgnored` | misc/ConfigFileReader.ipp:69-99 | an include of a file named by one character that is not read |
| `ConfigFileReaderModule.ConfigFileReader.ReadTop` | misc/ConfigFileReader.ipp:32-151 | the inner loop: line by line, until a pop, an include or the next section |
| `ConfigFileReaderModule.ConfigFileReader.Next` | misc/ConfigFileReader.ipp:20-155 | operator++ ends on every finite set of files, also mutually including ones, and reads one section of the expanded document |
| `ConfigFileReaderModule.ConfigFileReader.Open` | misc/ConfigFileReader.ipp:165-172 | opening pushes the file and reads its first section |
| `ConfigFileReaderModule.ReadAll` | misc/ConfigFileReader.ipp:20-178 | the loop open, use, advance until isEmpty (misc/test/config_test.cpp:20-37) ends and delivers exactly the sections of the expanded document |
| `ConfigFileReaderModule.InsertFirstWins` | misc/ConfigFileReader.ipp:148-148 | inserting pairs keeps a map whose keys are those that have occurred, each with its first value |
| `ConfigFileReaderModule.DeliveredSection` | misc/ConfigFileReader.ipp:20-155 | a section consists of the items up to the second header, has the name of its header, and holds exactly the keys that occur, each with the value of its first occurrence |
| `ConfigFileReaderModule.ShownSections` | misc/ConfigFileReader.ipp:20-178 | what the client loop delivers cuts the expanded document up at its headers, section by section |
| `PolynomialAlgebra.EvalProduct` | cotave/Polynomial.ipp:250-265 | evaluation turns the convolution of coefficients into a product |
| `PolynomialAlgebra.ProductNoTopZero` | cotave/Polynomial.ipp:250-265 | products of polynomials without trailing zeros have none, although * does not trim |
| `PolynomialModule.Polynomial.RemoveZero` | cotave/Polynomial.ipp:12-21 | the trailing zeros go and nothing else |
| `PolynomialModule.Polynomial.AddAssign` | cotave/Polynomial.ipp:61-78 | += for every operand, also the object itself |
| `PolynomialModule.Polynomial.SubAssign` | cotave/Polynomial.ipp:80-97 | -= likewise |
| `PolynomialModule.Polynomial.Plus` | cotave/Polynomial.ipp:200-220 | + is the trimmed coefficient sum |
| `PolynomialModule.Polynomial.Minus` | cotave/Polynomial.ipp:222-238 | - is the trimmed difference |
| `PolynomialModule.Polynomial.Times` | cotave/Polynomial.ipp:249-265 | the accumulating double loop is the convolution |
| `PolynomialModule.Polynomial.ScaleAssign` | cotave/Polynomial.ipp:106-116 | *= by a scalar clears the polynomial for zero |
| `PolynomialModule.Polynomial.Substitute` | cotave/Polynomial.ipp:161-170 | the running power loop is evaluation |
| `PolynomialModule.Polynomial.SubstitutePolynomial` | cotave/Polynomial.ipp:172-183 | the substitution loop sums p[i] * q^i |
| `PolynomialModule.OperatorsEvaluate` | cotave/Polynomial.ipp:200-265 | evaluation is a ring homomorphism on the operators' results |
| `PolynomialModule.SubstitutionComposes` | cotave/Polynomial.ipp:172-183 | p.substitute(q) at x is p at q(x), without trailing zeros |
| `BilinearTransform.TransferFunction` | cotave/ButterworthFilter.ipp:47-75 | the substitution preserves the transfer function: numerator over denominator at x is 1 over the prototype at s wherever s * a(1+x) = 1-x |
| `BilinearTransform.DenominatorLength` | cotave/ButterworthFilter.ipp:60-70 | the denominator has the order + 1 coefficients the constructor reads if and only if not (order odd and a = 1) |
| `BilinearTransform.DivisorPositive` | cotave/ButterworthFilter.ipp:77-78 | the divisor ret_den(0) exists and is positive |
| `BilinearTransform.PrototypeZero` | cotave/ButterworthFilter.ipp:29-45 | the prototype's only real zero is -1, for odd orders |
| `ButterworthPoles.PrototypePoles` | cotave/ButterworthFilter.ipp:29-45 | over the complex numbers the zeros of the prototype are exactly the two points of the unit circle with real part -c for each cosine c, and -1 for odd orders |
| `ButterworthPoles.PolesStable` | cotave/ButterworthFilter.ipp:29-30 | all poles are on the unit circle with a negative real part |
| `ButterworthPoles.MagnitudeResponse` | cotave/ButterworthFilter.ipp:29-45 | with the cosines of the angles (order - 2k - 1) pi / (2 order) the squared magnitude of the prototype at frequency w is 1 + w^(2 order): the Butterworth response |
| `ButterworthFilterModule.UnitGain` | cotave/ButterworthFilter.ipp:77-83 | exact unit gain at zero frequency for every order |
| `ButterworthFilterModule.ConstantRun` | cotave/ButterworthFilter.ipp:93-116 | after initialize(c) every run of update(c) puts out c |
| `ButterworthFilterModule.ButterworthFilter.constructor` | cotave/ButterworthFilter.ipp:14-84 | the loops leave the derived coefficients and zero delay lines |
| `ButterworthFilterModule.ButterworthFilter.Initialize` | cotave/ButterworthFilter.ipp:93-98 | both delay lines hold the input throughout |
| `ButterworthFilterModule.ButterworthFilter.Update` | cotave/ButterworthFilter.ipp:100-116 | the in-place shift and the two sums are one step of the recurrence |
| `CamelliaRotation.RotatedBit` | misc/CamelliaCipher.ipp:119-130 | bit i of the shifted block is bit i + x of the block, around the end |
| `CamelliaRotation.RotationsCompose` | misc/CamelliaCipher.ipp:119-130 | shifts add up |
| `CamelliaCipherModule.CamelliaBlock.RotateLeft` | misc/CamelliaCipher.ipp:119-130 | operator<<= rotates in place |
| `CamelliaSpec.FLInverse` | misc/CamelliaCipher.ipp:331-361 | FL and FLinv undo each other for every subkey |
| `CamelliaSpec.FLOnWords` | misc/CamelliaCipher.ipp:331-345 | FL is the word function of RFC 3713, section 2.4.2 |
| `CamelliaRoundFunction.RoundFunction` | misc/CamelliaCipher.ipp:323-329 | F: each byte of the result is the sum, over a row of the 8x8 matrix of the P layer, of the bytes of x + k replaced through their S-boxes, SBOX1 to SBOX4, SBOX2 to SBOX4 and SBOX1 in this order (section 2.4.1 of RFC 3713) |
| `CamelliaRoundFunction.PIsWords` | misc/CamelliaCipher.ipp:374-383 | the P layer is four additions of rotated words and an exchange |
| `CamelliaRoundFunction.PLayerInverse` | misc/CamelliaCipher.ipp:374-383 | and loses nothing: the additions backwards undo it, from either side |
| `CamelliaSpec.EncryptMatchesRfc` | misc/CamelliaCipher.ipp:389-417 | encrypt is the cipher of RFC 3713, section 2.3, which pairs the rounds and exchanges nothing until the end |
| `CamelliaSpec.BackwardRetraces` | misc/CamelliaCipher.ipp:419-445 | decrypt passes backwards through the states of encrypt |
| `CamelliaSpec.DecryptInvertsEncrypt` | misc/CamelliaCipher.ipp:389-445 | both orders of decrypt and encrypt are the identity, for every block, key size, subkeys and S-box table |
| `CamelliaBuffers.FLInto` | misc/CamelliaCipher.ipp:331-345 | FL on byte buffers, also in place |
| `CamelliaBuffers.FLinvInto` | misc/CamelliaCipher.ipp:347-361 | FLinv on byte buffers, also in place |
| `CamelliaBuffers.FInto` | misc/CamelliaCipher.ipp:323-329 | the round function into a buffer |
| `CamelliaCipherModule.Encrypt` | misc/CamelliaCipher.ipp:389-417 | the round loop on buffers computes the encryption |
| `CamelliaCipherModule.Decrypt` | misc/CamelliaCipher.ipp:419-445 | the backward round loop computes the decryption |
| `CamelliaKeySchedule.SetKey` | misc/CamelliaCipher.ipp:167-321 | the subkeys are the rotations that the tables of RFC 3713, section 2.2, list, for 128-, 192- and 256-bit keys, with KA and KB as derived there |
| `SHA256Spec.FipsZerosLeast` | misc/SHA256.ipp:98-130 | the standard's number of zero bytes is the least that works (FIPS 180-4, section 5.1.1) |
| `SHA256Spec.PaddingIff` | misc/SHA256.ipp:98-130 | end() pads as the standard does if and only if the length is not 55 modulo 64 |
| `SHA256Spec.DigestMatches` | misc/SHA256.ipp:98-130 | then the digest is the standard's; otherwise one block more is absorbed |
| `SHA256Spec.PaddingInjective` | misc/SHA256.ipp:98-130 | padded messages determine the message |
| `SHA256Spec.PackOfWordBytes` | misc/SHA256.ipp:169-183 | the four bytes written for a word, read back as calc() reads bytes, give the word |
| `SHA256Words.RotrBit` | misc/SHA256.ipp:31-33 | bit i of a word rotated right by n is its bit i + n, around the end |
| `SHA256Words.ChBit` | misc/SHA256.ipp:35-37 | each bit of Ch is that of y where x has the bit and that of z where not |
| `SHA256Words.MajBit` | misc/SHA256.ipp:39-41 | each bit of Maj is the majority of the three |
| `SHA256Words.BigSigma0Bit` | misc/SHA256.ipp:43-45 | each bit is the sum of the bits 2, 13 and 22 places above, around the end |
| `SHA256Words.BigSigma1Bit` | misc/SHA256.ipp:47-49 | the same for 6, 11 and 25 |
| `SHA256Words.SmallSigma0Bit` | misc/SHA256.ipp:51-53 | the same for 7 and 18, and the bit 3 places above where there is one |
| `SHA256Words.SmallSigma1Bit` | misc/SHA256.ipp:55-57 | the same for 17 and 19, and the bit 10 places above where there is one |
| `SHA256Words.RoundsAreRegisters` | misc/SHA256.ipp:76-91 | the rounds on eight variables are two recurrences: a and e after round t from the four values of each before |
| `SHA256Constants.PrimesComplete` | misc/SHA256.ipp:12-27 | every prime up to 311 is in the list of 64 |
| `SHA256Constants.PrimesSound` | misc/SHA256.ipp:12-27 | and the list holds primes only, in order: the first 64 |
| `SHA256Constants.KAreCubeRoots` | misc/SHA256.ipp:12-27 | constant i of the table is the first 32 fractional bits of the cube root of the i-th prime |
| `SHA256Constants.CubeBitsUnique` | misc/SHA256.ipp:12-27 | which are determined by the prime |
| `SHA256Constants.InitialAreSquareRoots` | misc/SHA256.ipp:132-149 | initial word i is the first 32 fractional bits of the square root of the i-th prime |
| `SHA256Example.DigestOfAbc` | misc/test/sha_test.cpp:18-29 | the digest of "abc": schedule, rounds, byte order and padding together give ba7816bf 8f01cfea 414140de 5dae2223 b00361a3 96177a9c b410ff61 f20015ad |
| `SHA256Module.BufferFills` | misc/SHA256.ipp:151-167 | one more byte fills the buffer or completes a block |
| `SHA256Module.SHA256.Calc` | misc/SHA256.ipp:60-96 | the compression of FIPS 180-4, section 6.2.2, with the buffer cleared on the way |
| `SHA256Module.SHA256.Push` | misc/SHA256.ipp:151-167 | after any split of a message into pushes the object is the one its concatenation determines |
| `SHA256Module.SHA256.End` | misc/SHA256.ipp:98-130 | the padding blocks are absorbed, with the bit length modulo 2^64 |
| `SHA256Module.SHA256.Hash` | misc/SHA256.ipp:169-183 | the digest of everything pushed so far; the object itself is left alone |
| `SHA256Module.SHA256.HashMessage` | misc/SHA256.ipp:185-189 | the one-shot form |
| `CRCDivision.SerialIsDivision` | misc/CRC.ipp:60-65 | the bit-serial register is the remainder of the message followed by zeros under long division, plus the share of the preset |
| `CRCBytes.RegisterIsRemainder` | misc/CRC.ipp:60-65 | the same for whole bytes |
| `CRCBytes.TimesInjective` | misc/CRC.ipp:79-87 | stepping is one-to-one on registers |
| `CRC8Table.TableIsDivision` | misc/CRC.ipp:30-53 | every entry of crc8atm_table is eight division steps |
| `CRC16Table.TableIsDivision` | misc/CRC.ipp:110-140 | every entry of crc16ccitt_table is eight division steps |
| `CRC32Table.TableIsDivision` | misc/CRC.ipp:200-244 | every entry of crc32_table is eight division steps |
| `CRC32CTable.TableIsDivision` | misc/CRC.ipp:311-364 | every entry of crc32c_table is eight division steps |
| `CRCModule.Crc8IsRemainder` | misc/CRC.ipp:56-65 | CRC_8_ATM of every message is its remainder |
| `CRCModule.Crc16IsRemainder` | misc/CRC.ipp:143-153 | CRC_16_CCITT: remainder plus preset |
| `CRCModule.Crc32IsRemainder` | misc/CRC.ipp:247-256 | CRC_32 and CRC_32C: remainder plus preset, lowest bit first (section 8 of RFC 1952) |
| `CRCModule.CRC8Atm.Push` | misc/CRC.ipp:60-65 | the table loop |
| `CRCModule.Crc8Concat` | misc/CRC.ipp:60-65 | any split into pushes gives the same register |
| `CRCModule.Crc32Concat` | misc/CRC.ipp:251-256 | likewise for the 32-bit codes |
| `CRCModule.CRC8Atm.Check` | misc/CRC.ipp:79-87 | accepts exactly the value of the message |
| `CRCModule.CRC16Ccitt.Check` | misc/CRC.ipp:168-176 | accepts exactly the two bytes of the value |
| `CRCModule.Residue32` | misc/CRC.ipp:275-288 | the residue 0x2144DF1C |
| `CRCModule.CRC32Register.Check` | misc/CRC.ipp:275-288 | accepts exactly the four bytes that crc() writes |
| `CRCModule.Check32C` | misc/CRC.ipp:396-404 | what check() of CRC_32C accepts instead: one value for each message, given in closed form |
| `CRCModule.OwnRejected32C` | misc/CRC.ipp:396-404 | which is never the value that crc() writes: check rejects the right value of every message |
| `CRCModule.CheckCastagnoli` | misc/CRC.ipp:396-404 | check() itself: pushes message and value, and tests the result for zero |
| `OrderedEntries.InsertGet` | misc/HashMap.ipp:145-149 | insertion changes the lookup of one absent key only |
| `HashMapModule.HashExamples` | misc/HashMap.ipp:10-20 | the hash of "a", of "ab" and of the byte 0xff, which a signed char widens as -1 |
| `HashMapModule.FlatIsContents` | misc/HashMap.ipp:33-48 | all buckets together hold every entry of the plain map once, and nothing else |
| `HashMapModule.HashMap.Add` | misc/HashMap.ipp:145-149 | the first value for a key wins |
| `HashMapModule.HashMap.Remove` | misc/HashMap.ipp:151-158 | removes a present key and returns its value |
| `HashMapModule.HashMap.Index` | misc/HashMap.ipp:216-225 | reading a missing key inserts an empty value |
| `HashMapModule.HashMap.Assign` | misc/HashMap.ipp:216-225 | assignment through operator[] |
| `HashMapModule.HashMap.At` | misc/HashMap.ipp:195-203 | an iterator on the entry, or end() |
| `HashMapModule.HashMap.Begin` | misc/HashMap.ipp:166-174 | the first entry; for an empty map an iterator that is not end() |
| `HashMapModule.HashMap.Next` | misc/HashMap.ipp:33-48 | operator++ stands on the next entry in bucket order or equals end() |
| `HashMapModule.HashMap.Traverse` | misc/HashMap.ipp:33-193 | iterating a non-empty map (misc/test/hash_test.cpp:66-74) ends and visits every entry exactly once |
| `Morton.PositionOfMorton` | misc/Octree.ipp:50-57 | position undoes mortonNumber |
| `Morton.MortonOfPosition` | misc/Octree.ipp:42-57 | mortonNumber undoes position on 24 bits |
| `Morton.MortonBit` | misc/Octree.ipp:42-48 | bits 3i, 3i + 1 and 3i + 2 of the number are bit i of x, y and z |
| `Morton.UpHalves` | misc/Octree.ipp:59-62 | up leads to the cell of half the coordinates |
| `Morton.Level` | misc/Octree.ipp:29-40 | the highest non-zero octal digit, or -1 |
| `Morton.Enclose` | misc/Octree.ipp:69-73 | the number shifted past the highest differing digit |
| `Morton.LowestCommonAncestor` | misc/Octree.ipp:69-73 | two numbers have the same ancestor after k steps exactly when k is at least what enclose shifts |
| `Morton.LevelKeptIff` | misc/Octree.ipp:99-106 | assignInstance(level, ...) uses the level asked for exactly when the cell's top digit is not zero |
| `OctreeModule.LevelInjective` | misc/Octree.ipp:83-97 | two keys of a level never share an instance |
| `OctreeModule.Octree.AssignInstance` | misc/Octree.ipp:83-97 | behaves as a plain map from cells to instances: a new one only for a new cell, at the end of its level |
| `OctreeModule.Octree.AssignAt` | misc/Octree.ipp:99-106 | the overload for a cell of a level |
| `OctreeModule.Octree.Size` | misc/Octree.ipp:124-135 | the number of instances of a level, or of all cells |

## Left out

- IntXModule.IntX.AbsDiv: a division by zero, and a positive dividend with a negative divisor, where doubling the divisor never ends, are excluded; so are divisions that are neither safe nor have a quotient of at most 10^18 / 4 bits, about 30 petabytes, beyond which a limb of a wrong remainder could leave int64.
- IntXModule.IntX.DivMod: the same operands are excluded. `/=` and `%=`, which alias result and dividend, are covered by `AbsDiv`.
- IntXModule.IntX.AbsMul: a negative zero as second operand of a product with a nonzero or negative first one is excluded, as the source reads the lowest limb of an empty vector there.
- IntXText.ToBinArray: that the bytes are the base-256 digits is proved for safe divisions only. The bytes can also be right after a division that is not, as the low byte of a wrong remainder is the right one while the quotient is right.
- IntXBits.BitOperator: operands whose smaller magnitude has more bytes are excluded, as the source runs past the shorter vector there; that happens when a negative number, which leaves one byte, meets a longer one of smaller magnitude. `~` is not modelled.
- RSA.Generate: receives the two primes; the random search for them and its running time are not modelled, and the arithmetic is over exact integers rather than `intX_t` objects.
- ButterworthFilterModule.ButterworthFilter.constructor: odd orders with a = 1 are excluded, as the source reads past the trimmed coefficients there; the cosines of the pole angles and the tangent are parameters with their ranges; `zeroPhaseFilter` is left out.
- SHA256Module.SHA256.Push: takes the message pushed so far as a ghost argument; the counters are numbers modulo 2^64.
- OctreeModule.Octree.AssignInstance: requires a number with a non-zero digit among the tree's digits, since the source indexes its arrays with -1 otherwise.
- HashMapModule.Hash: the map's laws hold for any hash function, and nothing is said of the quality of this one.
- HashMapModule.HashMap.Remove: requires the key, as the source dereferences the iterator that find returns.
- HashMapModule.HashMap.Traverse: requires a non-empty map; begin and end differ on an empty one.
- CLogConservation.LogConserved: renames and opens succeed; the use of a proxy that has been deleted is not modelled, a late write goes to its queue; when a file reaches the size to rotate is any choice.
- ThreadStart.RunKeepsInv: one thread calls start(); two overlapping calls are the subject of `ThreadStartRace`, with the functor left out there.
- Floating-point rounding: the FFT, the polynomials and the filter are over exact numbers, with a chain of roots of unity as a parameter of the FFT.
- Camellia's S-box values and Sigma constants are parameters: the proofs hold for any.
- Pointers into buffers are an array with an offset; addresses and alignment are not modelled.
- clearWriteQueue, clocks, timed waits, priorities and real-time modes of threads.
- Character-level parsing of configuration lines: a line is a header, an include or a list of pairs, and the error for an include without a name is left out.
- const_iterator, which repeats the iterator, and `operator[] const`, which inserts like the other one.
- Spectrum output of the FFT, polynomial output and the unary minus and division of polynomials, which would add easy members.
- Sockets, serial ports, processes, widgets, readline, tokenizer, images, SVD and the other numerical code of cotave.
