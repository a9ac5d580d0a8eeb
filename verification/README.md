# Verified models of double-conversion and of folly's lock-free containers

The app vendors two C++ libraries whose correctness rests on arguments that no reader can check by eye. This project models
their hard parts in Dafny and proves what they promise.

**Exact decimal/binary conversion** (double-conversion). Bottom up: a big integer of 128 limbs in base 2^28, updated in
place (`Limbs`, `Columns`, `LimbArith`, `Powers`, `Bignums`); binary64 and correct rounding, IEEE 754-2008 sections 3.4 and
4.3.1 (`Ieee`, `RealPowers`); the exact digit generators (`Shortest`, `DecimalRounding`, `GenerateDigits`, `CountedDigits`,
`FixedDigits`, `StartValues`, `DtoaStart`, `DtoaFixup`, `PowerEstimate`, `OddPowers`, `Dtoa`); the fast printers in 64 and
128 bits (`DiyFps`, `Boundaries`, `PowerGuess`, `DigitGeneration`, `GrisuMeaning`, `FastPrinter`, `FastCounted`,
`FastPrecision`, `Wide`, `DigitFilling`, `FastFixed`, `FastFixedPrinter`) and their dispatcher (`DoubleToDigits`); the
parser (`StrtodTrim`, `StrtodCompare`, `FastStrtod`, `RoundToDouble`, `LeastOrder`, `StringToDouble`); the texts
(`NumberText`, `TextLayout`, `TextPrinting`, `TextReading`); and both ends together (`RoundTrip`). The numbers are related to reals
throughout: a `Double` is a 64-bit word with a rational value, and `RoundsTo(x, d)` says that d is x rounded to nearest,
ties to even.

**Lock-free containers** (folly). Each is a state machine with any number of threads that takes one atomic access per step,
and its theorems are about every state of every run: the growing hash map (`AtomicHashMap`, `AtomicHashMapInvariant`,
`AtomicHashMapSafety`), the insert-only chained map (`AtomicUnorderedMap`, `AtomicUnorderedMapSafety`), the lazy skip list
(`SkipList`, `SkipListLayers`, `SkipListThreads`, `SkipListSteps`, `SkipListChanges`, `SkipListSafety`, `SkipListMembers`,
`SkipListHistory`, `SkipListWitness`) and the deferred reclamation of its nodes (`NodeRecycler`). For each, what every answer
of an operation means is proved as well (`AtomicHashMapOutcomes`, `AtomicUnorderedMapOutcomes`, `SkipListOutcomes`,
`NodeRecyclerOutcomes`), and how many steps it takes (`AtomicHashMapProgress`, `AtomicUnorderedMapProgress`,
`SkipListProgress`): searches of both maps are wait-free, insertion into the chained map is lock-free, and the others wait
only for a thread that can move.

Loops and in-place updates are methods over arrays and class fields; each is proved against functions on naturals, reals or
digit strings, and the lemmas say what those mean. `dafny verify dfyconfig.toml` checks everything.

## Assumptions

The theorems hold under these, and nothing else is taken on trust.

- `AccurateTable`: the 87 cached powers of ten are normalized, at most half a unit off, and the first one is the constant of
  the table (cached-powers.cc). `InTargetRange`: the index that the lookup computes in floating point lands in the documented
  exponent range.
- `ProductFor`: the floating-point product in `EstimatePower` is within its decrement of the real one; that the estimate then
  meets its contract is proved, not assumed.
- `SoundHardware`: when the hardware path of the parser (`DoubleStrtod`) gives an answer, it is the correctly rounded one.
- A bignum has room for 128 limbs. The source aborts beyond that; here it is a precondition of each operation, and the
  printer and the parser are proved to stay within it.
- Memory is sequentially consistent, counters are exact, and random heights, random slots and the decision to grow are
  arbitrary.

## Findings

Where the code and what it says about itself differ, the code is modelled and the difference is stated exactly.

- `ASSERT(BigitLength() == other.BigitLength())` (bignum.cc:515) does not always hold: dividing B^2 by B^2 - 1, with B = 2^28,
  leaves one limb where the divisor has two (`EqualLengthsMissed`). `RemoveTopMultiples` states exactly when it fails:
  the dividend is at least B^k, k being the length of the divisor, and taking off its leading multiples once, or once more,
  leaves less than B^(k-1). The division is exact all the same.
- The documented contract of `BiggestPowerTen`, power <= number < 10 * power (fast-dtoa.cc:228-232), fails for 50 with ten
  bits, arguments that meet its precondition. `ContractMet` gives the exact condition, a comparison with one table entry, and
  `ContractMetByLength` shows that it holds for every size that is at most one bit too long, which is how it is called.
- bignum-dtoa.h:60-61 says that the shortest digits round up on a tie; the code takes the even digit (bignum-dtoa.cc:246-257).
- `GenerateCountedDigits` asserts count >= 0 (bignum-dtoa.cc:286) but writes `buffer[count - 1]`, so it needs count >= 1.
- At binary order -1075 the error that `DiyFpStrtod` tracks does not by itself justify the answer true; that it is right
  depends on the table entry for 10^-348 (`LeastOrder`).
- The 128-bit branch of `FillFractionals` needs its argument below 2^56 just like the other one, which alone asserts it
  (fixed-dtoa.cc:239). A shift by `point - 1` for point 0 can only meet a zero remainder; that bit is modelled as 0.
- `CreateDecimalRepresentation` drops digits when the point is at or before them and no places are asked for; its contract
  says that the text then denotes zero.
- In precision mode with no digits `DoubleToAscii` leaves `*point` unset (double-conversion.cc:374-378); the model returns 0.
- More than 772 significant digits are handed to the parser with a final one in place of the rest, so the pair need not denote
  the number of the text; it rounds alike (`StickyValue`). The same goes for exponents clipped at INT_MAX / 2.
- A remove of the skip list may return false while a node of its key is in the bottom layer all the time, because the node is
  not complete yet (`SkipListWitness` has such a run) or another remove has marked it; `UnfinishedKeys` shows that these are
  the only cases. The set is therefore the keys of complete and unmarked nodes (`SkipListMembers`); with respect to it every
  add and remove takes effect, or is justified, at a moment of its own (`SkipListOutcomes`).

## Model

| member | source | states |
|---|---|---|
| RoundTrip.PrintAndRead | multiplatform/iosApp/Pods/DoubleConversion/double-conversion/double-conversion.cc:161-196 | For every finite double, either sign, zero included, and every formatting style: the text ToShortest writes, read by StringToIeee, is that double bit for bit; only a negative zero under the unique-zero flag comes back as plain zero. The text is the sign and the one shortest text of the style |
| RoundTrip.PrintAndParse | multiplatform/iosApp/Pods/DoubleConversion/double-conversion/strtod.cc:448-472 | The digits and point of the exact shortest printer, given to Strtod, yield the very double they were printed from, with at most 17 digits |
| RoundTrip.ShortestIsReadBack | multiplatform/iosApp/Pods/DoubleConversion/double-conversion/bignum-dtoa.cc:185-274 | Any parser that rounds correctly, whatever its algorithm, maps a shortest decimal of v back to v |
| RoundTrip.NegatedText | multiplatform/iosApp/Pods/DoubleConversion/double-conversion/double-conversion.cc:161-196 | A minus sign in front of a numeral changes its sign and nothing else of what is read |
| Bignums.Bignum.constructor | multiplatform/iosApp/Pods/DoubleConversion/double-conversion/bignum.cc:33-38 | A new number is zero, clamped, and owns its limbs |
| Bignums.Bignum.Zero | multiplatform/iosApp/Pods/DoubleConversion/double-conversion/bignum.cc:689-695 | All 128 limbs are zero afterwards, also those above the used ones |
| Bignums.Bignum.Clamp | multiplatform/iosApp/Pods/DoubleConversion/double-conversion/bignum.cc:673-681 | Leading zero limbs go, the value stays; a zero has exponent 0; a clamped number is left as it was |
| Bignums.Bignum.AssignUInt16 | multiplatform/iosApp/Pods/DoubleConversion/double-conversion/bignum.cc:48-57 | The value is the argument and one limb is enough |
| Bignums.Bignum.AssignUInt64 | multiplatform/iosApp/Pods/DoubleConversion/double-conversion/bignum.cc:59-74 | The value is the 64-bit argument, cut into at most three limbs |
| Bignums.Bignum.AssignBignum | multiplatform/iosApp/Pods/DoubleConversion/double-conversion/bignum.cc:76-87 | The value and the representation of the other number, with zero limbs above |
| Decimals.ReadUInt64 | multiplatform/iosApp/Pods/DoubleConversion/double-conversion/bignum.cc:89-99 | Up to 19 digits are read exactly; the 64-bit accumulator does not wrap |
| Bignums.Bignum.AssignDecimalString | multiplatform/iosApp/Pods/DoubleConversion/double-conversion/bignum.cc:102-120 | The value is the number the digit string denotes, read in chunks of 19 |
| Bignums.Bignum.AddUInt64 | multiplatform/iosApp/Pods/DoubleConversion/double-conversion/bignum.cc:161-166 | Exact sum; every limb above the used ones is zero again |
| Bignums.Bignum.AddBignum | multiplatform/iosApp/Pods/DoubleConversion/double-conversion/bignum.cc:169-208 | Exact sum after alignment, with the carry run to its end within the stated room |
| Bignums.Bignum.SubtractBignum | multiplatform/iosApp/Pods/DoubleConversion/double-conversion/bignum.cc:211-235 | Exact difference for other <= this; clamped; the length does not grow |
| Bignums.Bignum.ShiftLeft | multiplatform/iosApp/Pods/DoubleConversion/double-conversion/bignum.cc:238-244 | Multiplication by 2^shift: whole limbs through the exponent, the rest in the limbs |
| Bignums.Bignum.BigitsShiftLeft | multiplatform/iosApp/Pods/DoubleConversion/double-conversion/bignum.cc:722-735 | The limbs are multiplied by 2^shift; the carry out of the top becomes at most one new limb |
| Bignums.Bignum.MultiplyByUInt32 | multiplatform/iosApp/Pods/DoubleConversion/double-conversion/bignum.cc:247-270 | Exact product with any 32-bit factor, zero included |
| Bignums.Bignum.MultiplyByUInt64 | multiplatform/iosApp/Pods/DoubleConversion/double-conversion/bignum.cc:273-297 | Exact product with any 64-bit factor: the three-term carry sum stays below 2^64 |
| Bignums.Bignum.MultiplyByPowerOfTen | multiplatform/iosApp/Pods/DoubleConversion/double-conversion/bignum.cc:300-337 | Exact product with 10^power, by powers of five from the tables and one shift |
| Bignums.Bignum.Square | multiplatform/iosApp/Pods/DoubleConversion/double-conversion/bignum.cc:340-409 | Exact square in place: upper copy read before it is overwritten, 64-bit column sums, accumulator zero at the end |
| Bignums.Bignum.SquareColumns | multiplatform/iosApp/Pods/DoubleConversion/double-conversion/bignum.cc:354-401 | The columns written so far and the accumulator together are the column sum of the square; no column overflows 64 bits |
| Bignums.Bignum.SumLowColumn | multiplatform/iosApp/Pods/DoubleConversion/double-conversion/bignum.cc:367-384 | One column adds sum of s[i]*s[k-i] to the accumulator, read from the copy alone, below used * 2^56 |
| Columns.ColumnSumIsProduct | multiplatform/iosApp/Pods/DoubleConversion/double-conversion/bignum.cc:340-409 | The sum of all columns, weighted by the base, is the product of the two numbers |
| Bignums.Bignum.AssignPowerUInt16 | multiplatform/iosApp/Pods/DoubleConversion/double-conversion/bignum.cc:412-482 | The value is base^exponent for every nonzero base and every exponent, zero included |
| Powers.SplitBase | multiplatform/iosApp/Pods/DoubleConversion/double-conversion/bignum.cc:420-433 | base == odd * 2^shifts with an odd rest, and the bit length of the rest |
| Powers.PowerInWord | multiplatform/iosApp/Pods/DoubleConversion/double-conversion/bignum.cc:446-465 | The 64-bit rounds keep value * (delayed base) == base^(leading bits of the exponent); if no bits are left that is base^exponent, and a delayed factor leaves a value above 32 bits, which ends the loop |
| Bignums.Bignum.PowerOnBignum | multiplatform/iosApp/Pods/DoubleConversion/double-conversion/bignum.cc:471-478 | The bignum rounds carry the same invariant to the whole exponent |
| Bignums.Bignum.DivideModuloIntBignum | multiplatform/iosApp/Pods/DoubleConversion/double-conversion/bignum.cc:486-549 | Returns this / other and leaves this % other, exactly, whenever the quotient fits in 16 bits and the leading limb of a shorter divisor is large |
| Bignums.SmallQuotientSuffices | multiplatform/iosApp/Pods/DoubleConversion/double-conversion/bignum.cc:503-508 | this < 16 * other implies everything that is asserted about the leading limbs |
| Bignums.Bignum.RemoveTopMultiples | multiplatform/iosApp/Pods/DoubleConversion/double-conversion/bignum.cc:503-515 | The first loop removes exactly result multiples of other; the lengths that are asserted to be equal after it differ if and only if `LengthsMissed` holds on entry, and then the leading limb of other is 2^28 - 1 |
| Bignums.MissedExactly | multiplatform/iosApp/Pods/DoubleConversion/double-conversion/bignum.cc:503-515 | What the loop leaves is shorter than the divisor exactly if the dividend has a limb more and one round, or a second, leaves less than the power below it |
| Bignums.EqualLengthsMissed | multiplatform/iosApp/Pods/DoubleConversion/double-conversion/bignum.cc:503-515 | That happens: with B^2 and B^2 - 1 one multiple is removed, 1 is left, and the lengths are 1 and 2 |
| Bignums.Bignum.NearlyFull | multiplatform/iosApp/Pods/DoubleConversion/double-conversion/bignum.cc:503-515 | If a subtraction makes the dividend shorter than the divisor, the leading limb of the divisor is 2^28 - 1 |
| Bignums.Bignum.Estimate | multiplatform/iosApp/Pods/DoubleConversion/double-conversion/bignum.cc:533-542 | top / (otherTop + 1) never exceeds the quotient, and the early exit is taken only when the estimate is exact |
| Bignums.Bignum.DivideBySingleLimb | multiplatform/iosApp/Pods/DoubleConversion/double-conversion/bignum.cc:523-531 | The one-limb shortcut leaves quotient and remainder of the whole numbers, the quotient stored being that of the limbs |
| Bignums.Bignum.DivideByEstimate | multiplatform/iosApp/Pods/DoubleConversion/double-conversion/bignum.cc:533-548 | Subtracting the estimate and then single multiples leaves the exact quotient and remainder |
| Bignums.Bignum.SubtractTimes | multiplatform/iosApp/Pods/DoubleConversion/double-conversion/bignum.cc:738-763 | Exactly factor * other is subtracted and the number is clamped, also on the early return |
| Bignums.Bignum.BigitQuotient | multiplatform/iosApp/Pods/DoubleConversion/double-conversion/bignum.cc:611-615 | BigitAt(i) is the digit i of the value in base 2^28, hidden zeros below the exponent included |
| Bignums.Bignum.Compare | multiplatform/iosApp/Pods/DoubleConversion/double-conversion/bignum.cc:618-633 | The sign of a - b for all clamped numbers |
| Bignums.Bignum.PlusCompare | multiplatform/iosApp/Pods/DoubleConversion/double-conversion/bignum.cc:636-670 | The sign of a + b - c for all clamped numbers: length shortcuts, disjoint summands and the one-unit borrow included |
| Bignums.Bignum.ComparePlusLimbs | multiplatform/iosApp/Pods/DoubleConversion/double-conversion/bignum.cc:653-669 | The loop from the top limb decides the sign of a + b - c; more than one unit of borrow settles it early |
| Bignums.Bignum.Align | multiplatform/iosApp/Pods/DoubleConversion/double-conversion/bignum.cc:698-719 | Hidden zero limbs are stored until the exponents agree; value and length stay the same |
| Ieee.SuccessorValue | multiplatform/iosApp/Pods/DoubleConversion/double-conversion/ieee.h:88-99 | The next bit pattern is one unit in the last place above, across binades, from denormals to normals and to infinity, and has the other parity |
| Ieee.ValueMono | multiplatform/iosApp/Pods/DoubleConversion/double-conversion/ieee.h:111-129 | Bit patterns of non-negative numbers are ordered as their values |
| Ieee.BoundaryIsMidpoint | multiplatform/iosApp/Pods/DoubleConversion/double-conversion/ieee.h:162-165 | UpperBoundary lies exactly half way to the successor |
| Ieee.RoundsToIsNearestEven | multiplatform/iosApp/Pods/DoubleConversion/double-conversion/ieee.h:171-199 | Lying between the boundaries (ends allowed for even significands) is the same as being rounded to nearest, ties to even, over all doubles |
| Ieee.RoundsToUnique | multiplatform/iosApp/Pods/DoubleConversion/double-conversion/ieee.h:171-199 | A real number rounds to one double only |
| Boundaries.AsNormalizedDiyFp | multiplatform/iosApp/Pods/DoubleConversion/double-conversion/ieee.h:66-81 | The same value with its top bit set |
| Boundaries.NormalizedBoundaries | multiplatform/iosApp/Pods/DoubleConversion/double-conversion/ieee.h:171-185 | Both boundaries with a common exponent, the lower one a quarter unit below where the unit changes |
| Boundaries.Spacing | multiplatform/iosApp/Pods/DoubleConversion/double-conversion/fast-dtoa.cc:519-552 | The normalized number and its boundaries share the exponent, as Grisu3 asserts, and are far enough apart for 17 digits |
| DtoaStart.LowerDistance | multiplatform/iosApp/Pods/DoubleConversion/double-conversion/ieee.h:187-199 | LowerBoundaryIsCloser says exactly where the lower boundary is a quarter and not half a unit away |
| DiyFps.Multiply | multiplatform/iosApp/Pods/DoubleConversion/double-conversion/diy-fp.cc:34-55 | The upper 64 bits of the 128-bit product, rounded half up; no partial sum wraps |
| DiyFps.Normalize | multiplatform/iosApp/Pods/DoubleConversion/double-conversion/diy-fp.h:77-95 | The same value with its top bit set |
| DiyFps.DiyFpToUint64 | multiplatform/iosApp/Pods/DoubleConversion/double-conversion/ieee.h:233-259 | Normal, denormal and carried-over significands are encoded exactly; too large is infinity, too small is zero |
| GenerateDigits.GenerateShortestDigits | multiplatform/iosApp/Pods/DoubleConversion/double-conversion/bignum-dtoa.cc:185-274 | Terminates with the shortest decimal between the boundaries and, of that length, the one closest to v; deltas shared or separate |
| GenerateDigits.NextDigit | multiplatform/iosApp/Pods/DoubleConversion/double-conversion/bignum-dtoa.cc:196-201 | One digit and the remainder: numerator == digit * denominator + rest |
| GenerateDigits.InDeltaRoom | multiplatform/iosApp/Pods/DoubleConversion/double-conversion/bignum-dtoa.cc:203-221 | Whether dropping or rounding up the remainder stays between the boundaries, ends allowed for even significands |
| GenerateDigits.PrepareNextDigit | multiplatform/iosApp/Pods/DoubleConversion/double-conversion/bignum-dtoa.cc:222-231 | Numerator and both deltas grow tenfold, once each even when the deltas are one bignum |
| GenerateDigits.RoundLastDigit | multiplatform/iosApp/Pods/DoubleConversion/double-conversion/bignum-dtoa.cc:232-272 | The last digit goes up when only the upper neighbour fits or it is closer; at half way to the even digit; it is never a nine |
| Shortest.Stop | multiplatform/iosApp/Pods/DoubleConversion/double-conversion/bignum-dtoa.cc:232-272 | Stopping when one neighbour is inside yields a shortest and closest decimal |
| Shortest.Continue | multiplatform/iosApp/Pods/DoubleConversion/double-conversion/bignum-dtoa.cc:222-231 | If neither neighbour is inside, no decimal of this length is, and the invariant holds one digit further |
| Shortest.NineIsNotRounded | multiplatform/iosApp/Pods/DoubleConversion/double-conversion/bignum-dtoa.cc:236-258 | A nine never has room above: the next decade would have been inside one round earlier |
| Shortest.FirstDigit | multiplatform/iosApp/Pods/DoubleConversion/double-conversion/bignum-dtoa.cc:194-258 | A first digit zero can only be rounded up, so no leading zero appears |
| DecimalRounding.InsideIsRounding | multiplatform/iosApp/Pods/DoubleConversion/double-conversion/bignum-dtoa.cc:185-274 | A decimal is inside the scaled interval if and only if it reads back as the double |
| DecimalRounding.FewerDigits | multiplatform/iosApp/Pods/DoubleConversion/double-conversion/bignum-dtoa.cc:185-274 | No decimal with fewer digits, at any exponent, reads back as the double |
| DecimalRounding.CoarserDigits | multiplatform/iosApp/Pods/DoubleConversion/double-conversion/bignum-dtoa.cc:185-274 | No decimal with a greater exponent reads back as the double |
| DecimalRounding.ShortestReadsBack | multiplatform/iosApp/Pods/DoubleConversion/double-conversion/bignum-dtoa.cc:185-274 | The generated digits read back, are shortest over all exponents and closest, ties to the even digit |
| DecimalRounding.ShortestDecimalUnique | multiplatform/iosApp/Pods/DoubleConversion/double-conversion/bignum-dtoa.h:55-62 | There is one shortest closest decimal of a double: digits, length and point |
| CountedDigits.LeadingDigits | multiplatform/iosApp/Pods/DoubleConversion/double-conversion/bignum-dtoa.cc:287-296 | All digits but the last are the truncated quotient and what is left is the rest |
| CountedDigits.LastDigit | multiplatform/iosApp/Pods/DoubleConversion/double-conversion/bignum-dtoa.cc:297-304 | The last digit is rounded half up and may come out as ten |
| CountedDigits.PropagateDigitCarry | multiplatform/iosApp/Pods/DoubleConversion/double-conversion/bignum-dtoa.cc:305-316 | The carry runs to the left; out of the first digit it leaves 10...0 |
| CountedDigits.GenerateCountedDigits | multiplatform/iosApp/Pods/DoubleConversion/double-conversion/bignum-dtoa.cc:283-318 | Exactly count digits of the fraction rounded half up; a carry out moves the point |
| FixedDigits.BignumToFixed | multiplatform/iosApp/Pods/DoubleConversion/double-conversion/bignum-dtoa.cc:326-367 | The digits denote the number rounded half up at the requested place; none, with the point set there, if that is zero |
| FixedDigits.CountedIsRounded | multiplatform/iosApp/Pods/DoubleConversion/double-conversion/bignum-dtoa.cc:283-318 | Counted digits are the number rounded half up at the place of the last one |
| FixedDigits.TooSmall | multiplatform/iosApp/Pods/DoubleConversion/double-conversion/bignum-dtoa.cc:330-340 | Below a tenth of the last place everything rounds to zero |
| PowerEstimate.NormalizedExponent | multiplatform/iosApp/Pods/DoubleConversion/double-conversion/bignum-dtoa.cc:37-45 | The exponent of the significand shifted to 53 bits brackets the number |
| PowerEstimate.EstimateMeetsContract | multiplatform/iosApp/Pods/DoubleConversion/double-conversion/bignum-dtoa.cc:370-414 | 10^(estimate-1) <= v < upper boundary < 10^(estimate+1) for every finite double, whatever the product was rounded to within the decrement |
| Dtoa.EstimatePower | multiplatform/iosApp/Pods/DoubleConversion/double-conversion/bignum-dtoa.cc:385-414 | The returned estimate meets the documented contract |
| StartValues.InitialScaledStartValuesPositiveExponent | multiplatform/iosApp/Pods/DoubleConversion/double-conversion/bignum-dtoa.cc:417-447 | Numerator, denominator and deltas are those of v / 10^estimate for a non-negative exponent |
| StartValues.InitialScaledStartValuesNegativeExponentPositivePower | multiplatform/iosApp/Pods/DoubleConversion/double-conversion/bignum-dtoa.cc:450-481 | The same for a negative exponent and a non-negative power |
| StartValues.InitialScaledStartValuesNegativeExponentNegativePower | multiplatform/iosApp/Pods/DoubleConversion/double-conversion/bignum-dtoa.cc:484-527 | The same for both negative, the numerator serving as the power of ten while the deltas are copied |
| StartValues.InitialScaledStartValues | multiplatform/iosApp/Pods/DoubleConversion/double-conversion/bignum-dtoa.cc:568-600 | All four bignums in every case, the doubled deltas of a closer lower boundary included |
| DtoaStart.StartRepresents | multiplatform/iosApp/Pods/DoubleConversion/double-conversion/bignum-dtoa.cc:530-600 | The start fraction is v over the power of ten, and the deltas are the distances to the two neighbours' boundaries |
| Dtoa.FixupMultiply10 | multiplatform/iosApp/Pods/DoubleConversion/double-conversion/bignum-dtoa.cc:612-640 | Either the point moves or numerator and deltas grow tenfold |
| DtoaFixup.FixupReady | multiplatform/iosApp/Pods/DoubleConversion/double-conversion/bignum-dtoa.cc:603-640 | Under the estimate contract the fraction is in its first decade afterwards and still stands for v |
| DtoaFixup.SeventeenDigits | multiplatform/iosApp/Pods/DoubleConversion/double-conversion/bignum-dtoa.cc:185-274 | The interval is wider than a unit of the seventeenth digit, so generation ends within 17 digits |
| OddPowers.OddIsNoPowerOfTen | multiplatform/iosApp/Pods/DoubleConversion/double-conversion/bignum-dtoa.cc:617-630 | No double with an odd significand is a power of ten, so the strict comparison never sees numerator == denominator in the counted modes |
| Dtoa.BignumDtoa | multiplatform/iosApp/Pods/DoubleConversion/double-conversion/bignum-dtoa.cc:89-163 | Every mode: shortest and closest, rounded half up at a place, or rounded half up to a number of digits; terminated by NUL within the buffer |
| DigitGeneration.RoundWeed | multiplatform/iosApp/Pods/DoubleConversion/double-conversion/fast-dtoa.cc:61-166 | Lowers the last digit to the candidate closest to w and says true exactly if it is in the safe interval and no other candidate competes; the digit does not fall below zero and nothing wraps |
| DigitGeneration.DigitGen | multiplatform/iosApp/Pods/DoubleConversion/double-conversion/fast-dtoa.cc:300-396 | Digits and kappa describe a candidate inside the unsafe interval; true exactly if it is certain for all numbers within a unit |
| DigitGeneration.Weeded | multiplatform/iosApp/Pods/DoubleConversion/double-conversion/fast-dtoa.cc:61-166 | The distances RoundWeed compares say exactly whether the candidate is certain |
| GrisuMeaning.CertainIsBest | multiplatform/iosApp/Pods/DoubleConversion/double-conversion/fast-dtoa.cc:245-299 | For all reals low, w and high within one unit of the arguments: a certain result is strictly inside, kappa is the largest possible, and nothing at that kappa is as close to w |
| PowerGuess.BiggestPowerTen | multiplatform/iosApp/Pods/DoubleConversion/double-conversion/fast-dtoa.cc:236-256 | The power for the given bit count, corrected by one; number < 10 * power |
| PowerGuess.ContractMet | multiplatform/iosApp/Pods/DoubleConversion/double-conversion/fast-dtoa.cc:225-256 | The documented power <= number < 10 * power holds if and only if the number is positive and not below the power before the guessed one |
| PowerGuess.ContractMetByLength | multiplatform/iosApp/Pods/DoubleConversion/double-conversion/fast-dtoa.cc:225-256 | It holds whenever the number has at most one bit less than stated |
| PowerGuess.ContractMissed | multiplatform/iosApp/Pods/DoubleConversion/double-conversion/fast-dtoa.cc:225-256 | It fails for 50 with ten bits: the result is 100 |
| FastPrinter.ScaledClose | multiplatform/iosApp/Pods/DoubleConversion/double-conversion/fast-dtoa.cc:540-570 | The three scaled numbers meet the preconditions of DigitGen |
| FastPrinter.Grisu3 | multiplatform/iosApp/Pods/DoubleConversion/double-conversion/fast-dtoa.cc:519-583 | True means the shortest closest decimal of v; it is true exactly if the digit generation is sure about the scaled number and boundaries |
| FastPrinter.BestIsShortest | multiplatform/iosApp/Pods/DoubleConversion/double-conversion/fast-dtoa.cc:519-583 | Best between the boundaries means shortest and closest among all decimals that read back |
| FastPrinter.GetCachedPowerForBinaryExponentRange | multiplatform/iosApp/Pods/DoubleConversion/double-conversion/cached-powers.cc:142-159 | A power half a unit accurate in the requested exponent range |
| FastPrinter.FastDtoa | multiplatform/iosApp/Pods/DoubleConversion/double-conversion/fast-dtoa.cc:635-665 | In shortest mode, success means the unique shortest closest decimal, terminated by NUL, and is decided as in Grisu3 |
| FastCounted.IncrementLast | multiplatform/iosApp/Pods/DoubleConversion/double-conversion/fast-dtoa.cc:205-219 | Adds one in the last place; a carry out of the first digit leaves 10...0 |
| FastCounted.RoundWeedCounted | multiplatform/iosApp/Pods/DoubleConversion/double-conversion/fast-dtoa.cc:181-223 | True exactly if rounding down or up is right for every number within the unit; the digits are then those, rounded |
| FastCounted.DigitGenCounted | multiplatform/iosApp/Pods/DoubleConversion/double-conversion/fast-dtoa.cc:428-509 | The requested digits of the 64-bit number and its rest; false when the error reaches the rest |
| FastPrecision.CountedIsPrecise | multiplatform/iosApp/Pods/DoubleConversion/double-conversion/fast-dtoa.cc:591-632 | A certain count is v itself rounded to that many digits, in whichever decade v lies |
| FastPrecision.Grisu3Counted | multiplatform/iosApp/Pods/DoubleConversion/double-conversion/fast-dtoa.cc:591-632 | True means v rounded half up to the requested digits, without a leading zero; it is true exactly if what the digits leave is clearly on one side of half a step, and false when the digits run out |
| FastPrecision.FastDtoaPrecision | multiplatform/iosApp/Pods/DoubleConversion/double-conversion/fast-dtoa.cc:635-665 | In precision mode, success means what the exact algorithm promises, and is decided as in Grisu3Counted |
| Wide.UInt128.Multiply | multiplatform/iosApp/Pods/DoubleConversion/double-conversion/fixed-dtoa.cc:42-57 | Exact as long as the product fits in 128 bits; no partial sum wraps |
| Wide.UInt128.Shift | multiplatform/iosApp/Pods/DoubleConversion/double-conversion/fixed-dtoa.cc:59-78 | Division by, or multiplication modulo 2^128 with, a power of two |
| Wide.UInt128.DivModPowerOf2 | multiplatform/iosApp/Pods/DoubleConversion/double-conversion/fixed-dtoa.cc:80-95 | Returns the quotient and leaves the remainder of 2^power |
| Wide.UInt128.BitAt | multiplatform/iosApp/Pods/DoubleConversion/double-conversion/fixed-dtoa.cc:101-108 | The bit of the value at that position |
| DigitFilling.FillDigits32FixedLength | multiplatform/iosApp/Pods/DoubleConversion/double-conversion/fixed-dtoa.cc:120-127 | The lowest digits with leading zeros; what was in front stays |
| DigitFilling.FillDigits32 | multiplatform/iosApp/Pods/DoubleConversion/double-conversion/fixed-dtoa.cc:130-150 | All digits without leading zeros, none for zero, by filling backwards and exchanging |
| DigitFilling.FillDigits64FixedLength | multiplatform/iosApp/Pods/DoubleConversion/double-conversion/fixed-dtoa.cc:153-165 | Seventeen digits with leading zeros |
| DigitFilling.FillDigits64 | multiplatform/iosApp/Pods/DoubleConversion/double-conversion/fixed-dtoa.cc:168-186 | All digits of a 64-bit number without leading zeros |
| FastFixed.RoundUp | multiplatform/iosApp/Pods/DoubleConversion/double-conversion/fixed-dtoa.cc:189-216 | One is added in the last place; an empty buffer becomes a one |
| FastFixed.FillFractionals64 | multiplatform/iosApp/Pods/DoubleConversion/double-conversion/fixed-dtoa.cc:236-258 | The digits and the rest of the fraction, and whether the next bit rounds up; multiplying by five does not overflow |
| FastFixed.FillFractionals128 | multiplatform/iosApp/Pods/DoubleConversion/double-conversion/fixed-dtoa.cc:259-285 | The same in 128 bits for smaller fractions |
| FastFixed.FillFractionals | multiplatform/iosApp/Pods/DoubleConversion/double-conversion/fixed-dtoa.cc:230-286 | The buffer denotes the number rounded half up at the requested place |
| FastFixed.FillStep | multiplatform/iosApp/Pods/DoubleConversion/double-conversion/fixed-dtoa.cc:243-253 | Multiplying by five and lowering the point takes off exactly the next decimal digit |
| FastFixed.TrimZeros | multiplatform/iosApp/Pods/DoubleConversion/double-conversion/fixed-dtoa.cc:291-306 | No zero at either end and the same number |
| FastFixedPrinter.DivideByTen17 | multiplatform/iosApp/Pods/DoubleConversion/double-conversion/fixed-dtoa.cc:336-361 | Quotient and remainder of v by 10^17, although v needs more than 64 bits |
| FastFixedPrinter.FillCut | multiplatform/iosApp/Pods/DoubleConversion/double-conversion/fixed-dtoa.cc:370-381 | The integral part in full and the fraction rounded at the place |
| FastFixedPrinter.BelowPlaces | multiplatform/iosApp/Pods/DoubleConversion/double-conversion/fixed-dtoa.cc:382-388 | Below 2^-128 every requested place rounds to zero |
| FastFixedPrinter.FastFixedDtoa | multiplatform/iosApp/Pods/DoubleConversion/double-conversion/fixed-dtoa.cc:309-402 | Succeeds exactly for exponents up to 20 and at most 20 places; then the digits denote v rounded half up there, trimmed at both ends |
| StrtodTrim.TrimLeadingZeros | multiplatform/iosApp/Pods/DoubleConversion/double-conversion/strtod.cc:91-99 | The longest suffix without a zero in front; the same number |
| StrtodTrim.TrimTrailingZeros | multiplatform/iosApp/Pods/DoubleConversion/double-conversion/strtod.cc:101-109 | The longest prefix without a zero at the end; the number over the power of ten removed |
| StrtodTrim.CutToMaxSignificantDigits | multiplatform/iosApp/Pods/DoubleConversion/double-conversion/strtod.cc:111-130 | 779 digits and a one in place of the rest |
| StrtodTrim.NoBoundaryBetween | multiplatform/iosApp/Pods/DoubleConversion/double-conversion/strtod.cc:85-89 | No rounding boundary lies strictly between neighbouring decimals of 772 or more digits |
| StrtodTrim.CutPreservesRounding | multiplatform/iosApp/Pods/DoubleConversion/double-conversion/strtod.cc:111-130 | Cutting changes the number but not its side of any rounding boundary |
| StrtodTrim.TrimAndCut | multiplatform/iosApp/Pods/DoubleConversion/double-conversion/strtod.cc:133-156 | At most 780 digits that round like the input |
| FastStrtod.ReadUint64 | multiplatform/iosApp/Pods/DoubleConversion/double-conversion/strtod.cc:158-170 | Digits are read while another is sure to fit |
| FastStrtod.ReadDiyFp | multiplatform/iosApp/Pods/DoubleConversion/double-conversion/strtod.cc:176-195 | The digits within half a unit of the last one read; exact if none is left |
| FastStrtod.AdjustmentIsExact | multiplatform/iosApp/Pods/DoubleConversion/double-conversion/strtod.cc:251-270 | The seven adjustment powers are exact and normalized |
| FastStrtod.GetCachedPowerForDecimalExponent | multiplatform/iosApp/Pods/DoubleConversion/double-conversion/cached-powers.cc:162-176 | The cached power at or up to seven below the requested exponent |
| FastStrtod.ExactFactor | multiplatform/iosApp/Pods/DoubleConversion/double-conversion/strtod.cc:298-320 | Multiplying by an exact power adds half a unit of error |
| FastStrtod.RoundedFactor | multiplatform/iosApp/Pods/DoubleConversion/double-conversion/strtod.cc:322-335 | Multiplying by a cached power adds the half units of both and the product of the errors, at most one eighth |
| FastStrtod.MultiplyByCached | multiplatform/iosApp/Pods/DoubleConversion/double-conversion/strtod.cc:322-343 | The tracked error bounds the true one through multiplication and normalization |
| RoundToDouble.MakeRoom | multiplatform/iosApp/Pods/DoubleConversion/double-conversion/strtod.cc:352-364 | Shifting a denormal's significand keeps the bound, with the error rounded up |
| RoundToDouble.ClearlyBelow | multiplatform/iosApp/Pods/DoubleConversion/double-conversion/strtod.cc:365-380 | More than the error below half: rounding down is correct |
| RoundToDouble.ClearlyAbove | multiplatform/iosApp/Pods/DoubleConversion/double-conversion/strtod.cc:365-380 | More than the error above half: rounding up is correct |
| RoundToDouble.CloseToHalf | multiplatform/iosApp/Pods/DoubleConversion/double-conversion/strtod.cc:365-380 | Too close to tell: the lower double or the one above it is correct |
| RoundToDouble.RoundInput | multiplatform/iosApp/Pods/DoubleConversion/double-conversion/strtod.cc:345-381 | The result is correct or the one below; if it claims to be exact it is correct, except that at binary order -1075 one more fact is needed; it declines only for zero, infinity and numbers less than a sixteenth of a unit from a half-way point |
| RoundToDouble.CloseIsNearTie | multiplatform/iosApp/Pods/DoubleConversion/double-conversion/strtod.cc:365-381 | Too close to tell means within a sixteenth of a unit of the boundary above the result |
| LeastOrder.NotAboveHalf | multiplatform/iosApp/Pods/DoubleConversion/double-conversion/strtod.cc:345-381 | At that order the arithmetic itself keeps the number at or below half the least denormal, for all digits but one |
| LeastOrder.FirstAboveIsExact | multiplatform/iosApp/Pods/DoubleConversion/double-conversion/strtod.cc:345-381 | For that one the 64-bit products come out just at the next order |
| StringToDouble.DiyFpStrtod | multiplatform/iosApp/Pods/DoubleConversion/double-conversion/strtod.cc:274-381 | True: the correctly rounded double. False: that double or the one just below, and the number is next to the boundary between them unless the result is zero. For every digit string and exponent |
| StrtodCompare.CompareBufferWithDiyFp | multiplatform/iosApp/Pods/DoubleConversion/double-conversion/strtod.cc:392-418 | The sign of buffer * 10^exponent - f * 2^e, exactly, within bignum capacity |
| StringToDouble.ComputeGuess | multiplatform/iosApp/Pods/DoubleConversion/double-conversion/strtod.cc:421-446 | True means correct; false means correct or just below, not infinity, and next to the boundary above unless it is zero |
| StringToDouble.BoundaryDecides | multiplatform/iosApp/Pods/DoubleConversion/double-conversion/strtod.cc:456-471 | Comparing with the upper boundary picks the correct of the two; a tie goes to the even one |
| StringToDouble.Strtod | multiplatform/iosApp/Pods/DoubleConversion/double-conversion/strtod.cc:448-472 | For every digit string, empty or of any length, and every exponent: the double nearest to the denoted number, ties to even |
| TextPrinting.ExponentDigits | multiplatform/iosApp/Pods/DoubleConversion/double-conversion/double-conversion.cc:90-109 | The digits of the exponent, without a zero in front |
| TextPrinting.ExponentialDenotes | multiplatform/iosApp/Pods/DoubleConversion/double-conversion/double-conversion.cc:75-110 | The text d.ddde[+-]x is a numeral of the number the digits denote at that exponent |
| TextPrinting.CreateExponentialRepresentation | multiplatform/iosApp/Pods/DoubleConversion/double-conversion/double-conversion.cc:75-110 | Appends such a text: one digit, a point only if more digits follow, the mark, a minus for a negative exponent, a plus exactly if it is not negative and the flag asks for it |
| TextPrinting.DecimalDenotes | multiplatform/iosApp/Pods/DoubleConversion/double-conversion/double-conversion.cc:113-158 | The text with leading zeros, padding or a split at the point is a numeral of the number; with a point at or before the digits and no places it is zero |
| TextPrinting.CreateDecimalRepresentation | multiplatform/iosApp/Pods/DoubleConversion/double-conversion/double-conversion.cc:113-158 | Appends such a text, of bounded length, with exactly so many places; without places a point, or a point and a zero, exactly if their flags ask for them |
| TextPrinting.ToShortestIeeeNumber | multiplatform/iosApp/Pods/DoubleConversion/double-conversion/double-conversion.cc:161-196 | The sign and the shortest text of the value: with p the point of the n shortest digits, a plain numeral with Max(0, n - p) places if p - 1 is within the two bounds of the style, otherwise one with the exponent p - 1 and n - 1 places; its number rounds to the value |
| TextPrinting.ShortestTextUnique | multiplatform/iosApp/Pods/DoubleConversion/double-conversion/double-conversion.cc:161-196 | There is one shortest text for each number and style, so the layout and the number fix every character |
| TextLayout.PlainDetermined | multiplatform/iosApp/Pods/DoubleConversion/double-conversion/double-conversion.cc:113-158 | Two plain numerals with equally many places that denote the same number are equal |
| TextLayout.ScientificDetermined | multiplatform/iosApp/Pods/DoubleConversion/double-conversion/double-conversion.cc:75-110 | Two numerals with the same exponent and places that denote the same number are equal |
| TextPrinting.ToFixed | multiplatform/iosApp/Pods/DoubleConversion/double-conversion/double-conversion.cc:199-232 | Accepted exactly for values below FIRST_NON_FIXED and up to 60 places; the text is then a plain numeral with exactly the requested places, of the value rounded half up at the last of them |
| TextPrinting.FirstNonFixed | multiplatform/iosApp/Pods/DoubleConversion/double-conversion/double-conversion.cc:203-210 | That bound is the double nearest to 10^60: it lies below it and its successor above |
| DoubleToDigits.DoubleToAscii | multiplatform/iosApp/Pods/DoubleConversion/double-conversion/double-conversion.cc:355-413 | Sign, and the digits of the magnitude in every mode, whether the fast or the exact algorithm made them; "0" for zero |
| DoubleToDigits.ShortestDigitsUnique | multiplatform/iosApp/Pods/DoubleConversion/double-conversion/double-conversion.cc:380-413 | In shortest mode the specification has one answer, so the fast and the exact path cannot differ |
| DoubleToDigits.PrecisionDigitsUnique | multiplatform/iosApp/Pods/DoubleConversion/double-conversion/double-conversion.cc:380-413 | The same for a number of digits |
| DoubleToDigits.FixedDigitsAgree | multiplatform/iosApp/Pods/DoubleConversion/double-conversion/double-conversion.cc:380-413 | With fixed places the two paths differ at most in zeros at the end |
| NumberText.SpelledIsParsed | multiplatform/iosApp/Pods/DoubleConversion/double-conversion/double-conversion.cc:597-907 | A text spelled by the grammar is parsed as just that numeral, so it spells at most one |
| NumberText.ParsedIsSpelled | multiplatform/iosApp/Pods/DoubleConversion/double-conversion/double-conversion.cc:597-907 | And what is parsed is spelled: nothing outside the grammar is accepted |
| TextReading.ScanWhole | multiplatform/iosApp/Pods/DoubleConversion/double-conversion/double-conversion.cc:697-755 | Stops at the first non-digit with the significant digits copied and the others counted |
| TextReading.ScanFraction | multiplatform/iosApp/Pods/DoubleConversion/double-conversion/double-conversion.cc:761-803 | Likewise behind the point, with the exponent lowered for each digit |
| TextReading.ScanExponent | multiplatform/iosApp/Pods/DoubleConversion/double-conversion/double-conversion.cc:813-862 | Succeeds exactly if digits follow; the number is right or clipped far out |
| TextReading.StickyValue | multiplatform/iosApp/Pods/DoubleConversion/double-conversion/double-conversion.cc:892-895 | Digits dropped beyond 772, if any is nonzero, may be replaced by one without changing the rounding |
| TextReading.ScannedRounding | multiplatform/iosApp/Pods/DoubleConversion/double-conversion/double-conversion.cc:874-902 | What is handed to Strtod rounds like the digits of the text |
| TextReading.ClippedRounding | multiplatform/iosApp/Pods/DoubleConversion/double-conversion/double-conversion.cc:846-861 | Clipping the exponent does not change the result |
| TextReading.StringToIeee | multiplatform/iosApp/Pods/DoubleConversion/double-conversion/double-conversion.cc:597-907 | Without flags: junk exactly for texts outside the grammar, otherwise the nearest double of the denoted number, with its sign |
| AtomicHashMapSafety.KeysAreUnique | multiplatform/iosApp/Pods/RCT-Folly/folly/AtomicHashMap-inl.h:133-207 | In every state of every run no key is live in two cells, in one submap or across submaps |
| AtomicHashMapSafety.FullAndIdleIsFrozen | multiplatform/iosApp/Pods/RCT-Folly/folly/AtomicHashArray-inl.h:164-274 | A submap that is full with no insert pending is frozen: no thread can claim another of its cells |
| AtomicHashMapSafety.FrozenCellsStayEmpty | multiplatform/iosApp/Pods/RCT-Folly/folly/AtomicHashArray-inl.h:186-220 | Its empty cells then stay empty in every continuation of the run |
| AtomicHashMapSafety.FailedSearchIsJustified | multiplatform/iosApp/Pods/RCT-Folly/folly/AtomicHashMap-inl.h:297-319 | A find or erase that reports "not found" overlaps a moment at which the key was in no cell; AnswerIsJustified covers the other answers |
| AtomicHashMapOutcomes.AnswerIsJustified | multiplatform/iosApp/Pods/RCT-Folly/folly/AtomicHashArray-inl.h:100-345 | Found and AlreadyThere: at a moment of the operation the cell it returns was live with the key. Inserted: a step of its own made that cell live with the key. Removed: a step of its own erased it there. Thrown: a constructor threw in a step of its own, which left the cell empty |
| AtomicHashMapOutcomes.FullMapIsFull | multiplatform/iosApp/Pods/RCT-Folly/folly/AtomicHashMap-inl.h:153-161 | A full-map error comes only when no submap may be added, and the key is then sealed off in all of them |
| AtomicHashMapProgress.SearchIsWaitFree | multiplatform/iosApp/Pods/RCT-Folly/folly/AtomicHashMap-inl.h:297-319 | Find and erase take a number of steps bounded by the capacities alone, whatever other threads do |
| AtomicHashMapProgress.InsertIsBounded | multiplatform/iosApp/Pods/RCT-Folly/folly/AtomicHashMap-inl.h:133-207 | An insert takes a number of steps bounded by the capacities, plus eleven for each change of its cell by another thread and two for each look at pending inserts |
| AtomicHashMapProgress.EveryStepCounts | multiplatform/iosApp/Pods/RCT-Folly/folly/AtomicHashArray-inl.h:164-274 | No step of an operation goes uncounted unless the thread waits |
| AtomicHashMapProgress.WaitsForAnother | multiplatform/iosApp/Pods/RCT-Folly/folly/AtomicHashArray-inl.h:186-245 | In every reachable state a thread that waits, for a locked cell, pending inserts or a new submap, waits for another thread whose next step gets that one on |
| AtomicHashMapSafety.StepKeepsInv | multiplatform/iosApp/Pods/RCT-Folly/folly/AtomicHashArray-inl.h:164-274 | Every atomic step of every thread keeps the invariant of the map |
| AtomicHashMapSafety.RunKeepsInv | multiplatform/iosApp/Pods/RCT-Folly/folly/AtomicHashMap-inl.h:133-207 | The invariant holds in every state of every run, for any number of threads and submaps |
| AtomicHashMapInvariant.RootedOnce | multiplatform/iosApp/Pods/RCT-Folly/folly/AtomicHashArray-inl.h:164-274 | Two live or claimed cells reached by probing for the same key are the same cell |
| AtomicHashMapInvariant.SealedMeansAbsent | multiplatform/iosApp/Pods/RCT-Folly/folly/AtomicHashMap-inl.h:133-207 | A key that an insert has found missing from a frozen submap cannot be live in it |
| AtomicHashMapInvariant.DeadStable | multiplatform/iosApp/Pods/RCT-Folly/folly/AtomicHashArray-inl.h:301-345 | A cell that cannot hold the key any more, taken by another or erased, stays so |
| AtomicHashMapInvariant.SealedStable | multiplatform/iosApp/Pods/RCT-Folly/folly/AtomicHashMap-inl.h:133-207 | Once sealed off, a key stays out of that submap whatever other threads do |
| AtomicUnorderedMapSafety.ChainsAreSound | multiplatform/iosApp/Pods/RCT-Folly/folly/AtomicUnorderedMap.h:422-433 | Following links from a head visits no slot twice, no empty slot, no key of another chain and no key twice |
| AtomicUnorderedMapSafety.LinksFollowChain | multiplatform/iosApp/Pods/RCT-Folly/folly/AtomicUnorderedMap.h:422-433 | The slots reached by links are the chain from its end, so every walk ends |
| AtomicUnorderedMapSafety.NoAba | multiplatform/iosApp/Pods/RCT-Folly/folly/AtomicUnorderedMap.h:284-300 | If the head is what it was, the chain is what it was: the compare-and-swap cannot be fooled |
| AtomicUnorderedMapSafety.OneOwner | multiplatform/iosApp/Pods/RCT-Folly/folly/AtomicUnorderedMap.h:435-446 | Every slot under construction except slot 0 has exactly one owning thread |
| AtomicUnorderedMapSafety.ChainsOnlyGrow | multiplatform/iosApp/Pods/RCT-Folly/folly/AtomicUnorderedMap.h:261-312 | A linked slot stays at its place in its chain with its key |
| AtomicUnorderedMapSafety.ReturnedIndexIsStable | multiplatform/iosApp/Pods/RCT-Folly/folly/AtomicUnorderedMap.h:261-312 | Once an index has been returned for a key, every operation on the key that begins later and does not throw returns the same index; in particular no later find misses it; ThrownIsJustified says when one may throw |
| AtomicUnorderedMapOutcomes.IndexIsJustified | multiplatform/iosApp/Pods/RCT-Folly/folly/AtomicUnorderedMap.h:261-312 | A returned index is linked and holds the key; nil comes only from a plain find whose chain did not have the key when it began; an own slot was linked in a step of its own, at which the key was missing |
| AtomicUnorderedMapOutcomes.KindIsKept | multiplatform/iosApp/Pods/RCT-Folly/folly/AtomicUnorderedMap.h:261-312 | An operation keeps the key and the kind it was begun with |
| AtomicUnorderedMapOutcomes.ThrownIsJustified | multiplatform/iosApp/Pods/RCT-Folly/folly/AtomicUnorderedMap.h:435-464 | An operation throws only if its own constructor did, or if it was refused a thousand times; the first eight tries were at the slot of the key and those behind it, and each slot was in use or its word changed under the exchange |
| AtomicUnorderedMapOutcomes.FreeSlotIsEnough | multiplatform/iosApp/Pods/RCT-Folly/folly/AtomicUnorderedMap.h:435-446 | While one of the first eight slots is empty and its word unchanged all the time, an operation does not run out of tries |
| AtomicUnorderedMapProgress.FindIsWaitFree | multiplatform/iosApp/Pods/RCT-Folly/folly/AtomicUnorderedMap.h:422-431 | A find takes at most two steps for each slot of the table and four more, whatever other threads do |
| AtomicUnorderedMapProgress.InsertIsLockFree | multiplatform/iosApp/Pods/RCT-Folly/folly/AtomicUnorderedMap.h:280-311 | An insertion takes a bounded number of steps and one more search for each time the word of its slot changes |
| AtomicUnorderedMapProgress.ChangeIsProgress | multiplatform/iosApp/Pods/RCT-Folly/folly/AtomicUnorderedMap.h:280-311 | Whoever changes such a word has allocated, linked or given up a slot by that step |
| AtomicUnorderedMapProgress.EveryStepCounts | multiplatform/iosApp/Pods/RCT-Folly/folly/AtomicUnorderedMap.h:261-312 | Every step of an operation moves its thread, so none goes uncounted |
| AtomicUnorderedMapSafety.StepKeepsInv | multiplatform/iosApp/Pods/RCT-Folly/folly/AtomicUnorderedMap.h:261-312 | Every atomic step keeps the chains and what each thread has learnt |
| AtomicUnorderedMapSafety.RunKeepsInv | multiplatform/iosApp/Pods/RCT-Folly/folly/AtomicUnorderedMap.h:210-230 | The invariant holds from construction on in every run |
| SkipListSafety.LayersStaySorted | multiplatform/iosApp/Pods/RCT-Folly/folly/ConcurrentSkipList.h:224-251 | In every state of every run each link of each layer leads to a greater key |
| SkipListSafety.LayersStayNested | multiplatform/iosApp/Pods/RCT-Folly/folly/ConcurrentSkipList.h:308-401 | In every state of every run each layer is contained in the layer below |
| SkipListSafety.NoWaitCycle | multiplatform/iosApp/Pods/RCT-Folly/folly/ConcurrentSkipList.h:273-301 | In no state of any run do threads wait for each other's locks in a circle |
| SkipListSafety.NotHeldByItself | multiplatform/iosApp/Pods/RCT-Folly/folly/ConcurrentSkipList.h:273-301 | No thread waits for a lock it holds itself, remembered predecessors on several layers included |
| SkipListSafety.OperationsAreAtomic | multiplatform/iosApp/Pods/RCT-Folly/folly/ConcurrentSkipList.h:340-395 | One step of add puts its key into the bottom layer, which did not have it, one step of remove takes it out, and no other step changes the keys of that layer |
| SkipListMembers.MembersAreAtomic | multiplatform/iosApp/Pods/RCT-Folly/folly/ConcurrentSkipList.h:308-401 | The keys of complete, unmarked nodes are a set: completing a node adds its key, which was no member, marking it ends that, and no other step of any thread changes the members |
| SkipListMembers.UnfinishedKeys | multiplatform/iosApp/Pods/RCT-Folly/folly/ConcurrentSkipList.h:308-401 | A key is in the bottom layer without being a member exactly if its node there is incomplete or marked |
| SkipListWitness.RemoveMissesIncomplete | multiplatform/iosApp/Pods/RCT-Folly/folly/ConcurrentSkipList.h:361-373 | A run of two threads in which a remove returns false although its key is in the bottom layer from its beginning to its end |
| SkipListOutcomes.RemoveIsJustified | multiplatform/iosApp/Pods/RCT-Folly/folly/ConcurrentSkipList.h:361-401 | A remove that returns false overlapped a moment at which its key was no member. One that returns true ended the membership in a step of its own, by marking the node, and in a later one took the key out of the bottom layer; when it returns, the node is in no layer |
| SkipListOutcomes.AddIsJustified | multiplatform/iosApp/Pods/RCT-Folly/folly/ConcurrentSkipList.h:308-359 | An add that returns a node it found overlapped a moment at which that node was the member of its key. One that returns a new node put the key into the bottom layer and later made the node a member, each in a step of its own; the node is new, of the drawn height and in all its layers, and the list grew if asked to |
| SkipListProgress.RunIsAttended | multiplatform/iosApp/Pods/RCT-Folly/folly/ConcurrentSkipList.h:340-399 | In every reachable state an incomplete node is being linked, and a marked node that is still linked is being unlinked, by a thread that has not ended |
| SkipListProgress.AloneEnds | multiplatform/iosApp/Pods/RCT-Folly/folly/ConcurrentSkipList.h:308-401 | An add or a remove that nobody disturbs ends after a number of steps bounded by the height and the size of the list; it never starts its search over |
| SkipListProgress.AloneIsSet | multiplatform/iosApp/Pods/RCT-Folly/folly/ConcurrentSkipList.h:308-401 | Undisturbed, add and remove are those of a set: the answer says whether the key was a member, the key is one afterwards or is none, and the other members stay |
| SkipListHistory.Hindsight | multiplatform/iosApp/Pods/RCT-Folly/folly/ConcurrentSkipList.h:224-251 | The link one reads at a node that other threads may have unlinked is the link it had when it was last in that layer |
| SkipListHistory.LateSeen | multiplatform/iosApp/Pods/RCT-Folly/folly/ConcurrentSkipList.h:371-373 | A complete node met below its top layer was not complete when the search passed that layer, or another node of the key was replaced meanwhile |
| SkipListSafety.HasKeyIsWalk | multiplatform/iosApp/Pods/RCT-Folly/folly/ConcurrentSkipList.h:224-251 | A key is in the bottom layer exactly if that layer, walked from the head, meets it |
| SkipListSafety.StepKeepsInv | multiplatform/iosApp/Pods/RCT-Folly/folly/ConcurrentSkipList.h:308-401 | Every step of add, remove and head growth keeps the layers, what each thread knows, and the locks |
| SkipListSafety.RunKeepsInv | multiplatform/iosApp/Pods/RCT-Folly/folly/ConcurrentSkipList.h:504-527 | The invariant holds in every state of every run, head replacement included |
| SkipListLayers.LayersKept | multiplatform/iosApp/Pods/RCT-Folly/folly/ConcurrentSkipList.h:308-401 | Linking at one layer, unlinking at one layer and replacing the head each keep every layer complete and sorted |
| SkipListLayers.WalkIsLayer | multiplatform/iosApp/Pods/RCT-Folly/folly/ConcurrentSkipList.h:224-251 | Following one layer passes exactly the nodes linked in it |
| SkipListLayers.LayersAreNested | multiplatform/iosApp/Pods/RCT-Folly/folly/ConcurrentSkipList.h:224-251 | What is met on one layer is met on the layer below |
| SkipListThreads.PredInLayer | multiplatform/iosApp/Pods/RCT-Folly/folly/ConcurrentSkipList.h:273-301 | A locked and validated predecessor is in its layer: unmarked under its lock is enough |
| SkipListThreads.LinkAllowed | multiplatform/iosApp/Pods/RCT-Folly/folly/ConcurrentSkipList.h:333-350 | When a new node is linked, its place between predecessor and successor is still right and locked |
| SkipListThreads.UnlinkAllowed | multiplatform/iosApp/Pods/RCT-Folly/folly/ConcurrentSkipList.h:388-399 | When a node is unlinked, its predecessor still points to it and both locks are held |
| SkipListThreads.OthersFacts | multiplatform/iosApp/Pods/RCT-Folly/folly/ConcurrentSkipList.h:273-301 | No step of another thread undoes what a thread has established |
| SkipListChanges.WantedIsBelow | multiplatform/iosApp/Pods/RCT-Folly/folly/ConcurrentSkipList.h:273-301 | Locks are taken in descending order: the next node to lock is below every node already held |
| NodeRecycler.DestroyedOnce | multiplatform/iosApp/Pods/RCT-Folly/folly/ConcurrentSkipList-inl.h:274-307 | A node about to be destroyed has not been destroyed, is not queued again and is in no other batch |
| NodeRecycler.DestroyedAfterRelease | multiplatform/iosApp/Pods/RCT-Folly/folly/ConcurrentSkipList-inl.h:261-307 | While an accessor older than the adding of a node is alive, the node is neither destroyed nor in a batch |
| NodeRecycler.BatchIsOlderThanDecrement | multiplatform/iosApp/Pods/RCT-Folly/folly/ConcurrentSkipList-inl.h:274-307 | Nodes added after the final decrement are never in its batch |
| NodeRecycler.LastIsAlone | multiplatform/iosApp/Pods/RCT-Folly/folly/ConcurrentSkipList-inl.h:274-295 | A decrement to zero finds no other accessor alive |
| NodeRecycler.StepKeepsInv | multiplatform/iosApp/Pods/RCT-Folly/folly/ConcurrentSkipList-inl.h:261-307 | Every step of addRef, add and releaseRef keeps the count of references exact, the lock with its owner, and list, batches and destroyed nodes apart |
| NodeRecyclerOutcomes.NoNodeIsLost | multiplatform/iosApp/Pods/RCT-Folly/folly/ConcurrentSkipList-inl.h:261-307 | In every reachable state the nodes ever added are exactly those in the list, in a batch or destroyed |
| NodeRecyclerOutcomes.ListIsFlagged | multiplatform/iosApp/Pods/RCT-Folly/folly/ConcurrentSkipList-inl.h:261-295 | While nobody holds the lock, the list is flagged as dirty exactly if it is not empty |
| NodeRecyclerOutcomes.LastReleaseDestroys | multiplatform/iosApp/Pods/RCT-Folly/folly/ConcurrentSkipList-inl.h:284-307 | All that was in the list when the last reference was released under the lock has been destroyed when that release returns, whatever others do meanwhile |
| NodeRecyclerOutcomes.AloneLeavesNothing | multiplatform/iosApp/Pods/RCT-Folly/folly/ConcurrentSkipList-inl.h:261-307 | An accessor alone from its taking a reference to its return leaves the list empty and every node that was ever added destroyed |
| NodeRecyclerOutcomes.AddIsDone | multiplatform/iosApp/Pods/RCT-Folly/folly/ConcurrentSkipList-inl.h:261-271 | An accessor that finds the lock free puts its node into the list, flags the list, gives the lock back, and changes nothing else |
| NodeRecyclerOutcomes.WaitsForTheLock | multiplatform/iosApp/Pods/RCT-Folly/folly/ConcurrentSkipList-inl.h:261-307 | An accessor gets on by each step or finds the lock taken; then its holder, another accessor, gets on by its own next step |
| NodeRecycler.RunKeepsInv | multiplatform/iosApp/Pods/RCT-Folly/folly/ConcurrentSkipList-inl.h:261-307 | The invariant holds in every interleaving |

## Left out

- Single precision: the modes `SHORTEST_SINGLE` and `Strtof`, and the class `Single`.
- `ToExponential`, `ToPrecision`, `HandleSpecialValues`, hex strings of bignums.
- In `StringToIeee`: hexadecimal and octal numbers, NaN and infinity symbols, trailing junk and spaces; texts of 2^29
  characters or more.
- `DoubleStrtod` and the floating-point index of the cached-power lookup: see Assumptions.
- `DiyFp` is a value and not an object here: `Multiply` and `Normalize` return the new value. The string builder grows without
  bound.
- DigitGen: its ghost argument `capacity` bounds the digits it writes by the distance of the boundaries.
- DigitGenCounted: takes a number of at least 2^62, which normalized products are.
- TextReading.ScanExponent: an exponent beyond INT_MAX / 2 is only known to be clipped.
- Weak memory orders; the thread-cached counters of the hash map, whose fast reads are arbitrary here; `clear()`, iterators
  and destructors of the containers; allocators; the values stored beside the keys, except that constructors may throw.
- `find`, `contains`, `Skipper` and the iterators of the skip list, its size counter, and reclamation of nodes that another
  thread still reads, which is the subject of `NodeRecycler` alone.
- Fairness: nothing makes a thread take its next step, so a thread may hold a lock for ever, and an operation on the skip list
  that others keep disturbing may start its search over without end; its steps are bounded only while it is alone.
- The finding of a marked node makes an add of the skip list search again until the remove is through; that the remove gets
  through follows from `NoWaitCycle` and `RunIsAttended` for the locks, and is not counted in steps.
- The app code itself, and the other folly headers: easier than what is here.
