/** The fast printer for a given number of digits after the decimal point. */
module FastFixedPrinter {
  import opened Arith
  import opened Powers
  import opened RealPowers
  import opened Decimals
  import opened Ieee
  import opened DiyFps
  import opened DecimalRounding
  import opened FixedDigits
  import opened Wide
  import opened DigitFilling
  import opened FastFixed

  const FIVE17: uint64 := 0xB1_A2BC_2EC5
  const TEN17: int := 100000000000000000

  /** Room for the digits of the integral part, the fractional digits and the closing NUL. */
  ghost predicate FixedRoom(v: Double, fractionalCount: nat, size: nat) {
    fractionalCount + 1 < size && forall n: nat :: Pow(10, n) as real <= v.Value() ==> n + 1 + fractionalCount < size
  }

  lemma {:induction false} RoomForIntegral(v: Double, number: nat, fractionalCount: nat, size: nat)
    requires FixedRoom(v, fractionalCount, size) && number as real <= v.Value()
    ensures RoomFor(number, size)
  {
    hide Pow, Double.Value;
    forall n: nat | Pow(10, n) <= number
      ensures n < size
    {
      assert Pow(10, n) as real <= v.Value();
    }
  }

  lemma {:induction false} IntegralLength(v: Double, buffer: seq<char>, length: nat, number: nat, fractionalCount: nat,
                                          size: nat)
    requires FixedRoom(v, fractionalCount, size) && number as real <= v.Value() && Written(buffer, 0, length, number)
    ensures length + fractionalCount < size
  {
    hide Pow, Double.Value, Holds;
    if number > 0 { assert Pow(10, length - 1) as real <= v.Value(); }
  }

  lemma {:induction false} WrittenValue(buffer: seq<char>, length: nat, number: nat)
    requires Written(buffer, 0, length, number)
    ensures length <= |buffer| && AllDigits(buffer[..length]) && DecimalValue(buffer[..length]) == number
  {
    hide DecimalValue, Pow;
    assert buffer[0..length] == buffer[..length];
  }

  /** A whole number needs no rounding. */
  lemma {:induction false} WholeRounded(x: real, number: nat, count: nat)
    requires x == number as real
    ensures RoundedAt(x, count) == Decimal(number, 0)
  {
    hide Exp, RoundedAt, Decimal;
    ExpZero(10);
    RoundedFiner(x, 0, count, number);
  }

  lemma {:induction false} ValueAsWhole(v: Double)
    requires v.Exponent() >= 0
    ensures v.Value() == (v.Significand() as int * Pow(2, v.Exponent())) as real
  {
    hide Exp, Pow, Double.Exponent, Double.Significand;
    ExpNat(2, v.Exponent());
    CastProduct(v.Significand() as int, Pow(2, v.Exponent()));
  }

  // ---- Large numbers: division by 10^17 ----

  lemma {:induction false} FiveSeventeen()
    ensures FIVE17 as int * Pow(2, 17) == TEN17 && Pow(2, 17) == 131072
  {
    hide Pow;
    TwoToSmall();
    PowAdd(2, 8, 9);
  }

  lemma {:induction false} TwoToSmall()
    ensures Pow(2, 8) == 256 && Pow(2, 9) == 512 && Pow(2, 3) == 8 && Pow(2, 5) == 32 && Pow(2, 11) == 2048
  {
    hide Pow;
    TwoToFour();
    PowAdd(2, 4, 4);
    PowAdd(2, 8, 1);
    PowAdd(2, 8, 3);
    PowAdd(2, 4, 1);
  }

  lemma {:induction false} TwoToFour()
    ensures Pow(2, 4) == 16 && Pow(2, 3) == 8 && Pow(2, 1) == 2
  {
  }

  /** Quotient and remainder of f * 2^e by 10^17, when the factors 2 have been cancelled. */
  lemma {:induction false} Cancelled(f: int, e: nat, dividend: int, divisor: int, shift: nat)
    requires 0 <= f && divisor > 0 && divisor * Pow(2, shift) == TEN17 && dividend * Pow(2, shift) == f * Pow(2, e) &&
             dividend >= 0
    ensures dividend / divisor * TEN17 + dividend % divisor * Pow(2, shift) == f * Pow(2, e)
    ensures 0 <= dividend % divisor * Pow(2, shift) < TEN17
  {
    hide Pow;
    var q, r, p := dividend / divisor, dividend % divisor, Pow(2, shift);
    assert dividend == q * divisor + r;
    TimesSplit(q, divisor, r, p);
    MulMono(0, r, p);
    MulStrict(r, divisor, p);
  }

  lemma {:induction false} SmallQuotient(dividend: int, divisor: int, low: int, high: int)
    requires divisor > 0 && low >= 0 && low * divisor <= dividend < high * divisor
    ensures low <= dividend / divisor < high
  {
    var q := dividend / divisor;
    assert dividend == q * divisor + dividend % divisor;
    if q < low { MulMono(q, low - 1, divisor); TimesPredecessor(low, divisor); }
    if q >= high { MulMono(high, q, divisor); }
  }

  /** The quotient, and the remainder with the cancelled factors put back. */
  method QuotientAndRest(dividend: uint64, divisor: uint64, shift: nat, ghost f: nat, ghost e: nat)
    returns (quotient: uint32, remainder: uint64)
    requires divisor > 0 && shift < 64 && divisor as int * Pow(2, shift) == TEN17 &&
             dividend as int * Pow(2, shift) == f * Pow(2, e)
    requires divisor as int <= dividend as int < 0x1_0000_0000 * divisor as int
    ensures quotient > 0 && remainder as int < TEN17 && quotient as int * TEN17 + remainder as int == f * Pow(2, e)
  {
    hide Pow;
    SmallQuotient(dividend as int, divisor as int, 1, 0x1_0000_0000);
    Cancelled(f, e, dividend as int, divisor as int, shift);
    quotient := (dividend / divisor) as uint32;
    remainder := ((dividend % divisor) as int * Pow(2, shift)) as uint64;
  }

  lemma {:induction false} ShiftedRange(x: int, low: int, high: int, k: nat, most: nat)
    requires low <= x < high && 0 <= low && k <= most <= 5
    ensures low <= x * Pow(2, k) < high * 32
  {
    hide Pow;
    TwoToSmall();
    PowMono(2, k, 5);
    PowMono(2, 0, k);
    PowBasics(2);
    MulMono(1, Pow(2, k), x);
    MulMono(Pow(2, k), 32, x);
  }

  /** v = quotient * 10^17 + remainder. */
  method DivideByTen17(significand: uint64, exponent: nat) returns (quotient: uint32, remainder: uint64)
    requires 12 <= exponent <= 20 && HIDDEN_BIT <= significand < 2 * HIDDEN_BIT
    ensures quotient > 0 && remainder as int < TEN17
    ensures quotient as int * TEN17 + remainder as int == significand as int * Pow(2, exponent)
  {
    hide Pow;
    FiveSeventeen();
    if exponent > 17 {
      PowAdd(2, exponent - 17, 17);
      ShiftedRange(significand as int, HIDDEN_BIT as int, 2 * HIDDEN_BIT as int, exponent - 17, 3);
      Regrouped3(significand as int, Pow(2, exponent - 17), Pow(2, 17));
      var dividend := (significand as int * Pow(2, exponent - 17)) as uint64;
      quotient, remainder := QuotientAndRest(dividend, FIVE17, 17, significand as int, exponent);
    } else {
      PowAdd(2, 17 - exponent, exponent);
      ShiftedRange(FIVE17 as int, FIVE17 as int, FIVE17 as int + 1, 17 - exponent, 5);
      Regrouped3(FIVE17 as int, Pow(2, 17 - exponent), Pow(2, exponent));
      var divisor := (FIVE17 as int * Pow(2, 17 - exponent)) as uint64;
      quotient, remainder := QuotientAndRest(significand, divisor, exponent, significand as int, exponent);
    }
  }

  lemma {:induction false} Regrouped3(a: int, b: int, c: int)
    ensures (a * b) * c == a * (b * c)
  {
  }

  lemma {:induction false} NormalSignificand(v: Double)
    requires v.Finite()
    ensures v.Significand() < 2 * HIDDEN_BIT && (v.Exponent() > DENORMAL_EXPONENT ==> v.Significand() >= HIDDEN_BIT)
  {
  }

  /** The digits of a number of more than 64 bits. */
  method FillLarge(v: Double, fractionalCount: nat, buffer: array<char>) returns (length: nat)
    requires v.Finite() && 12 <= v.Exponent() <= 20 && FixedRoom(v, fractionalCount, buffer.Length)
    modifies buffer
    ensures length < buffer.Length && AllDigits(buffer[..length])
    ensures v.Value() == DecimalValue(buffer[..length]) as real
  {
    hide Pow, DecimalValue, Double.Value, Double.Significand, Double.Exponent, Holds, Written, FixedRoom, RoomFor;
    NormalSignificand(v);
    ValueAsWhole(v);
    var quotient, remainder := DivideByTen17(v.Significand(), v.Exponent());
    Tens();
    ghost var number := quotient as int * TEN17 + remainder as int;
    RoomForIntegral(v, number, fractionalCount, buffer.Length);
    RoomForPart(number, quotient as int, remainder as int, 17, buffer.Length);
    length := FillDigits32(quotient, buffer, 0);
    AsWritten(buffer[..], 0, length, quotient as int);
    WrittenFits(buffer[..], 0, length, quotient as int, 17, buffer.Length);
    ghost var first, mid := buffer[..], length;
    length := FillDigits64FixedLength(remainder, buffer, length);
    WrittenMore(first, buffer[..], 0, mid, length, quotient as int, remainder as int);
    WrittenValue(buffer[..], length, number);
    IntegralLength(v, buffer[..], length, number, fractionalCount, buffer.Length);
  }

  lemma {:induction false} ShiftedWord(significand: int, exponent: nat)
    requires 0 <= significand < 2 * HIDDEN_BIT as int && exponent <= 11
    ensures 0 <= significand * Pow(2, exponent) < TWO64
  {
    hide Pow;
    TwoToSmall();
    PowMono(2, exponent, 11);
    MulMono(Pow(2, exponent), 2048, significand);
    MulMono(0, significand, Pow(2, exponent));
  }

  /** The digits of a whole number of at most 64 bits. */
  method FillWhole(v: Double, fractionalCount: nat, buffer: array<char>) returns (length: nat)
    requires v.Finite() && 0 <= v.Exponent() <= 11 && FixedRoom(v, fractionalCount, buffer.Length)
    modifies buffer
    ensures length < buffer.Length && AllDigits(buffer[..length])
    ensures v.Value() == DecimalValue(buffer[..length]) as real
  {
    hide Pow, DecimalValue, Double.Value, Double.Significand, Double.Exponent, Holds, Written, FixedRoom, RoomFor;
    NormalSignificand(v);
    ValueAsWhole(v);
    ShiftedWord(v.Significand() as int, v.Exponent());
    var significand := (v.Significand() as int * Pow(2, v.Exponent())) as uint64;
    RoomForIntegral(v, significand as int, fractionalCount, buffer.Length);
    length := FillDigits64(significand, buffer, 0);
    WrittenValue(buffer[..], length, significand as int);
    IntegralLength(v, buffer[..], length, significand as int, fractionalCount, buffer.Length);
  }

  /** The number cut at the binary point. */
  lemma {:induction false} CutParts(v: Double, bits: nat, integrals: nat, fractionals: nat)
    requires v.Exponent() == 0 - bits && v.Significand() as int == integrals * Pow(2, bits) + fractionals
    ensures v.Value() == integrals as real + fractionals as real * Exp(2, v.Exponent()) &&
            integrals as real <= v.Value()
  {
    hide Pow, Exp, Double.Exponent, Double.Significand;
    ExpNeg(2, v.Exponent());
    ExpNat(2, bits);
    CastProduct(integrals, Pow(2, bits));
    CutReal(integrals as real, fractionals as real, Pow(2, bits) as real, Exp(2, v.Exponent()));
  }

  lemma {:induction false} CutReal(i: real, f: real, p: real, e: real)
    requires e * p == 1.0 && f >= 0.0 && e > 0.0
    ensures (i * p + f) * e == i + f * e && f * e >= 0.0
  {
    assert (i * p + f) * e == i * (e * p) + f * e;
  }

  /** The integral part in full and the fraction to the requested place. */
  method FillCut(v: Double, fractionalCount: nat, buffer: array<char>) returns (length: nat, decimalPoint: int)
    requires v.Finite() && -53 < v.Exponent() < 0 && fractionalCount <= 20 &&
             FixedRoom(v, fractionalCount, buffer.Length)
    modifies buffer
    ensures length < buffer.Length && AllDigits(buffer[..length]) && length - decimalPoint <= fractionalCount
    ensures Decimal(DecimalValue(buffer[..length]), decimalPoint - length) == RoundedAt(v.Value(), fractionalCount)
  {
    hide Pow, DecimalValue, Double.Value, Double.Significand, Double.Exponent, Holds, Written, RoomFor, Exp, RoundedAt,
         Decimal;
    NormalSignificand(v);
    var bits := -v.Exponent();
    var integrals, fractionals := SplitAt(v.Significand(), bits);
    TwosTo(bits);
    QuotientFits(v.Significand() as int, Pow(2, bits));
    FractionSmall(v.Significand() as int, Pow(2, bits));
    CutParts(v, bits, integrals as nat, fractionals as nat);
    RoomForIntegral(v, integrals as int, fractionalCount, buffer.Length);
    if integrals > 0xFFFF_FFFF {
      length := FillDigits64(integrals, buffer, 0);
    } else {
      length := FillDigits32(integrals as uint32, buffer, 0);
      AsWritten(buffer[..], 0, length, integrals as int);
    }
    WrittenValue(buffer[..], length, integrals as int);
    IntegralLength(v, buffer[..], length, integrals as int, fractionalCount, buffer.Length);
    length, decimalPoint := FillFractionals(fractionals, v.Exponent(), fractionalCount, buffer, length, length,
                                            v.Value());
  }

  lemma {:induction false} FractionSmall(n: int, p: int)
    requires 0 <= n && p > 0
    ensures 0 <= n % p < p && n % p <= n && n / p * p + n % p == n
  {
    QuotientFits(n, p);
  }

  lemma {:induction false} TinyValue(v: Double)
    requires v.Finite() && v.Exponent() < -128
    ensures 0.0 <= v.Value() < Exp(2, 53 + -129)
  {
    hide Exp, Pow, Double.Exponent, Double.Significand;
    NormalSignificand(v);
    ExpAdd(2, 53, -129);
    if v.Exponent() < -129 { ExpMono(2, v.Exponent(), -129); }
    ExpTwo53();
    RealProductBelow(v.Significand() as real, Exp(2, 53), Exp(2, v.Exponent()), Exp(2, -129));
  }

  lemma {:induction false} BelowPlaces(v: Double, fractionalCount: nat)
    requires v.Finite() && v.Exponent() < -128 && fractionalCount <= 20
    ensures RoundedAt(v.Value(), fractionalCount) == 0.0
  {
    hide Exp, Pow, RoundedAt, Double.Value;
    TinyValue(v);
    TwoBelowTen();
    if fractionalCount < 20 { ExpMono(10, -21, 0 - fractionalCount - 1); }
    TooSmall(v.Value(), fractionalCount);
  }

  lemma {:induction false} ExpTwo53()
    ensures Exp(2, 53) == 0x20_0000_0000_0000 as real
  {
    hide Pow, Exp;
    ExpNat(2, 53);
    TwoToSmall();
    PowAdd(2, 11, 11);
    PowAdd(2, 22, 22);
    PowAdd(2, 44, 9);
  }

  lemma {:induction false} TwoBelowTen()
    ensures Exp(2, 53 + -129) < Exp(10, -21)
  {
    hide Pow, Exp;
    ExpNeg(2, -76);
    ExpNat(2, 76);
    ExpNeg(10, -21);
    ExpNat(10, 21);
    Tens();
    PowPow(10, 3, 7);
    PowPow(2, 10, 7);
    PowBaseMono(1000, 1024, 7);
    TwoToSmall();
    PowAdd(2, 9, 1);
    TwoToFour();
    PowMono(2, 70, 76);
    PowStrict(2, 70, 76);
    Inverse(Exp(2, -76), Pow(2, 76) as real, Exp(10, -21), Pow(10, 21) as real);
  }

  lemma {:induction false} Inverse(a: real, p: real, b: real, q: real)
    requires a * p == 1.0 && b * q == 1.0 && 0.0 < q < p && a > 0.0 && b > 0.0
    ensures a < b
  {
    assert a * (p - q) > 0.0;
    ScaleOrder(a, b, q);
  }

  /** The digits of v with at most `fractionalCount` of them after the decimal point, rounded half up and without zeros
      at the ends; it declines numbers above 2^73 and more than 20 places. */
  method FastFixedDtoa(v: Double, fractionalCount: nat, buffer: array<char>)
    returns (r: bool, length: nat, decimalPoint: int)
    requires v.Finite() && FixedRoom(v, fractionalCount, buffer.Length)
    modifies buffer
    ensures r <==> v.Exponent() <= 20 && fractionalCount <= 20
    ensures r ==> length < buffer.Length && AllDigits(buffer[..length]) && buffer[length] == '\0'
    ensures r ==> Decimal(DecimalValue(buffer[..length]), decimalPoint - length) == RoundedAt(v.Value(),
        fractionalCount)
    ensures r ==> length - decimalPoint <= fractionalCount
    ensures r && length > 0 ==>
               buffer[0] != '0' && buffer[length - 1] != '0' && Pow(10, length - 1) <= DecimalValue(buffer[..length])
    ensures r && length == 0 ==> decimalPoint == 0 - fractionalCount
  {
    hide Pow, DecimalValue, Double.Value, Double.Significand, Double.Exponent, Exp, RoundedAt, Decimal, FixedRoom;
    if v.Exponent() > 20 || fractionalCount > 20 {
      return false, 0, 0;
    }
    length, decimalPoint := FixedDigitsOf(v, fractionalCount, buffer);
    length, decimalPoint := TrimZeros(buffer, length, decimalPoint);
    ghost var digits := buffer[..length];
    buffer[length] := '\0';
    assert buffer[..length] == digits;
    r := true;
    if length > 0 { LeadingDigit(digits); }
    if length == 0 {
      EmptyAnywhere(buffer[..0], decimalPoint, 0 - fractionalCount);
      decimalPoint := 0 - fractionalCount;
    }
  }

  lemma {:induction false} LeadingDigit(s: seq<char>)
    requires AllDigits(s) && |s| > 0 && s[0] != '0'
    ensures Pow(10, |s| - 1) <= DecimalValue(s)
    decreases |s|
  {
    if |s| > 1 {
      LeadingDigit(s[..|s| - 1]);
    } else {
      assert s[..0] == [];
    }
  }

  lemma {:induction false} EmptyAnywhere(s: seq<char>, p: int, q: int)
    requires |s| == 0
    ensures AllDigits(s) && Decimal(DecimalValue(s), p) == Decimal(DecimalValue(s), q)
  {
    hide Exp;
  }

  /** The digits before trimming. */
  method FixedDigitsOf(v: Double, fractionalCount: nat, buffer: array<char>) returns (length: nat, decimalPoint: int)
    requires v.Finite() && v.Exponent() <= 20 && fractionalCount <= 20 && FixedRoom(v, fractionalCount, buffer.Length)
    modifies buffer
    ensures length < buffer.Length && AllDigits(buffer[..length]) && length - decimalPoint <= fractionalCount
    ensures Decimal(DecimalValue(buffer[..length]), decimalPoint - length) == RoundedAt(v.Value(), fractionalCount)
  {
    hide Pow, DecimalValue, Double.Value, Double.Significand, Double.Exponent, Exp, RoundedAt, Decimal;
    var exponent := v.Exponent();
    if exponent + 53 > 64 {
      length := FillLarge(v, fractionalCount, buffer);
      WholeRounded(v.Value(), DecimalValue(buffer[..length]), fractionalCount);
      decimalPoint := length;
    } else if exponent >= 0 {
      length := FillWhole(v, fractionalCount, buffer);
      WholeRounded(v.Value(), DecimalValue(buffer[..length]), fractionalCount);
      decimalPoint := length;
    } else if exponent > -53 {
      length, decimalPoint := FillCut(v, fractionalCount, buffer);
    } else if exponent < -128 {
      buffer[0] := '\0';
      length, decimalPoint := 0, 0 - fractionalCount;
      BelowPlaces(v, fractionalCount);
      DecimalEmpty(buffer[..0]);
      ZeroDecimal(decimalPoint);
    } else {
      NormalSignificand(v);
      BelowOne(v.Significand() as int, -exponent);
      DecimalEmpty(buffer[..0]);
      CutParts(v, -exponent, 0, v.Significand() as nat);
      length, decimalPoint := FillFractionals(v.Significand(), exponent, fractionalCount, buffer, 0, 0, v.Value());
    }
  }

  lemma {:induction false} BelowOne(s: int, bits: nat)
    requires 0 <= s < 2 * HIDDEN_BIT as int && bits >= 53
    ensures s < Pow(2, bits)
  {
    hide Pow, Exp;
    ExpTwo53();
    ExpNat(2, 53);
    PowMono(2, 53, bits);
  }
}
