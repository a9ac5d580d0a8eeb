/** The fast printer: when it succeeds, its digits are the shortest ones, the same that exact arithmetic gives. */
module FastPrinter {
  import opened Arith
  import opened Decimals
  import opened RealPowers
  import opened Ieee
  import opened DiyFps
  import opened DecimalRounding
  import opened PowerGuess
  import opened DigitGeneration
  import opened GrisuMeaning
  import opened Boundaries
  import opened FastStrtod
  import RoundToDouble

  const MINIMAL_TARGET_EXPONENT := -60
  const MAXIMAL_TARGET_EXPONENT := -32
  const FAST_DTOA_MAXIMAL_LENGTH := 17

  lemma {:induction false} ProductEstimates(x: real, a: DiyFp, power: DiyFp, mk: int, r: DiyFp)
    requires Exactly(x, a) && HalfUlp(power, mk) && IsProduct(r, a, power) && r.e <= 0
    ensures Estimates(r, x, Factor(mk, -r.e))
  {
    hide Exp, HalfUlp, IsProduct, Times;
    ExactIsWithin(x, a);
    RoundedFactor(x, a, power, mk, r, 0);
    NearIsEstimate(x, r, mk);
  }

  lemma {:induction false} ExactIsWithin(x: real, a: DiyFp)
    requires Exactly(x, a)
    ensures Within(x, a, 0)
  {
    hide Exp;
  }

  lemma {:induction false} NearIsEstimate(x: real, r: DiyFp, mk: int)
    requires RoundToDouble.Near(ScaledByTens(x, mk), r, 8) && r.e <= 0
    ensures Estimates(r, x, Factor(mk, -r.e))
  {
    hide Exp;
    Associated(x, Exp(10, mk), Exp(2, -r.e));
  }

  /** Rounded products keep the order, and what lies between two numbers stays between them up to a unit. */
  lemma {:induction false} ProductOrder(a: DiyFp, b: DiyFp, power: DiyFp, ra: DiyFp, rb: DiyFp)
    requires IsProduct(ra, a, power) && IsProduct(rb, b, power) && a.f <= b.f
    ensures ra.f <= rb.f
    ensures power.f as int >= TWO63 ==> 2 * (rb.f as int - ra.f as int) >= b.f as int - a.f as int - 2
  {
    MulMono(a.f as int, b.f as int, power.f as int);
    if power.f as int >= TWO63 {
      MulMono(TWO63, power.f as int, b.f as int - a.f as int);
      Difference(a.f as int, b.f as int, power.f as int);
    }
  }

  lemma {:induction false} Difference(a: int, b: int, p: int)
    ensures p * (b - a) == b * p - a * p
  {
  }

  lemma {:induction false} ProductBelow(a: DiyFp, power: DiyFp, r: DiyFp)
    requires IsProduct(r, a, power) && power.f as int >= TWO63 && TWO63 <= a.f as int <= TWO64 - 1024
    ensures TWO63 / 2 <= r.f as int <= TWO64 - 1024
  {
    MulMono(a.f as int, TWO64 - 1024, power.f as int);
    MulMono(TWO63, a.f as int, power.f as int);
    MulMono(TWO63, power.f as int, TWO63);
    MulMono(power.f as int, TWO64 - 1, TWO64 - 1024);
  }

  /** Seventeen digits always suffice: the interval is not narrower than 10^-16 of its upper end. */
  lemma {:induction false} WideEnough(mMinus: DiyFp, mPlus: DiyFp, power: DiyFp, low: DiyFp, high: DiyFp)
    requires IsProduct(low, mMinus, power) && IsProduct(high, mPlus, power) && mMinus.f <= mPlus.f
    requires mPlus.f as int <= 0x23_86F2_6FC1_0000 * (mPlus.f as int - mMinus.f as int)
    ensures high.f as int + 1 <= 0x23_86F2_6FC1_0000 * (high.f as int - low.f as int + 2)
  {
    var a, b, p := mMinus.f as int * power.f as int, mPlus.f as int * power.f as int, power.f as int;
    MulMono(mPlus.f as int, 0x23_86F2_6FC1_0000 * (mPlus.f as int - mMinus.f as int), p);
    Thrice(mMinus.f as int, mPlus.f as int, p);
    Rounded(a, b, low.f as int, high.f as int);
  }

  lemma {:induction false} Thrice(x: int, y: int, p: int)
    ensures 0x23_86F2_6FC1_0000 * (y - x) * p == 0x23_86F2_6FC1_0000 * (y * p - x * p)
  {
  }

  lemma {:induction false} Rounded(a: int, b: int, l: int, h: int)
    requires 0 <= a && 0 <= b <= 0x23_86F2_6FC1_0000 * (b - a) && l == (a + TWO63) / TWO64 && h == (b + TWO63) / TWO64
    ensures h + 1 <= 0x23_86F2_6FC1_0000 * (h - l + 2)
  {
    assert h * TWO64 <= b + TWO63;
    assert b - a <= (h - l + 1) * TWO64;
  }

  lemma {:induction false} Sixteen()
    ensures Pow(10, 16) == 0x23_86F2_6FC1_0000 && Pow(10, 17) == 10 * Pow(10, 16)
  {
    hide Pow;
    PowAdd(10, 8, 8);
    PowAdd(10, 4, 4);
    PowAdd(10, 16, 1);
    Four();
  }

  lemma {:induction false} Four()
    ensures Pow(10, 4) == 10000 && Pow(10, 1) == 10
  {
    assert Pow(10, 2) == 100;
  }

  /** The first digit's place is at most the number itself, so there is room for 17 digits. */
  lemma {:induction false} FirstPlaceFits(low: DiyFp, high: DiyFp)
    requires low.e == high.e && -60 <= high.e <= -32 && TWO63 / 2 <= high.f as int + 1 < TWO64 && low.f <= high.f
    requires high.f as int + 1 <= 0x23_86F2_6FC1_0000 * (high.f as int - low.f as int + 2)
    ensures FirstPlace(high) <= 10 * (high.f as int + 1) && HasRoom(low, high, 17)
  {
    hide Pow, SmallPower, Digits;
    var top, s := high.f as int + 1, -high.e;
    var one := Pow(2, s);
    ShiftedOne(s);
    IntegralPart(top, s);
    PowAdd(2, 64 - s - 2, 2);
    TwosUpTo(2);
    QuarterOf(top, one, Pow(2, 64 - s - 2));
    ContractMetByLength(top / one, 64 - s);
    TensStart(Digits(top / one, 64 - s));
    PositiveDigits(top / one, 64 - s);
    FirstAtMost(top, one, top / one, SmallPower(Digits(top / one, 64 - s)), top % one);
    Sixteen();
  }

  lemma {:induction false} PositiveDigits(number: nat, numberBits: nat)
    requires SmallPower(Digits(number, numberBits)) <= number < 10 * SmallPower(Digits(number, numberBits))
    ensures Digits(number, numberBits) > 0
  {
    hide Pow, Digits;
  }

  lemma {:induction false} FirstAtMost(top: int, one: int, q: int, p: int, r: int)
    requires one > 0 && p <= q && top == q * one + r && 0 <= r
    ensures 10 * p * one <= 10 * top
  {
    MulMono(p, q, one);
  }

  /** The interval between the boundaries as seen by reading: what reads back as v is neither below nor above it. */
  lemma {:induction false} BestIsShortest(v: Double, c: nat, n: nat, e: int)
    requires 0 < v.d64 && v.Finite() && n > 0 && Pow(10, n - 1) <= c < Pow(10, n)
    requires IsBest(LowerBoundary(v), v.Value(), v.UpperBoundary().Value(), c, e)
    ensures IsShortestDecimal(v, c, n, e + n)
  {
    hide Decimal, Double.Value, Double.UpperBoundary, Exp, Pow, DiyFp.Value, Distance;
    assert RoundsTo(Decimal(c, e), v) by { DecimalNonNegative(c, e); }
    forall o: nat, j: int | o < Pow(10, n - 1) || j > e
      ensures !RoundsTo(Decimal(o, j), v)
    {
      if j <= e { FewerIsOutside(v, c, n, e, o, j); }
    }
    assert ClosestDecimal(v, c, e);
  }

  /** With fewer digits a decimal falls short of the first one with a greater exponent. */
  lemma {:induction false} FewerIsOutside(v: Double, c: nat, n: nat, e: int, o: nat, j: int)
    requires 0 < v.d64 && v.Finite() && n > 0 && Pow(10, n - 1) <= c && o < Pow(10, n - 1) && j <= e
    requires IsBest(LowerBoundary(v), v.Value(), v.UpperBoundary().Value(), c, e)
    ensures !RoundsTo(Decimal(o, j), v)
  {
    hide Decimal, Double.Value, Double.UpperBoundary, Exp, Pow, DiyFp.Value, Distance;
    var p := if n == 1 then 0 else Pow(10, n - 2);
    BelowCoarser(o, j, n, e);
    CoarserBelow(c, n, e);
    assert !(LowerBoundary(v) <= Decimal(p, e + 1) <= v.UpperBoundary().Value());
  }

  lemma {:induction false} BelowCoarser(o: nat, j: int, n: nat, e: int)
    requires n > 0 && o < Pow(10, n - 1) && j <= e
    ensures Decimal(o, j) <= Decimal(if n == 1 then 0 else Pow(10, n - 2), e + 1)
  {
    hide Exp, Pow;
    if n == 1 {
      TensStart(0);
      DecimalZero(j, e + 1);
    } else {
      CoarseDecimal(Pow(10, n - 2), e, 1);
      PowAdd(10, n - 2, 1);
      if j < e { ExpMono(10, j, e); }
      SmallerDecimal(o as real, Pow(10, n - 1) as real, Exp(10, j), Exp(10, e));
    }
  }

  lemma {:induction false} DecimalZero(j: int, e: int)
    ensures Decimal(0, j) == 0.0 == Decimal(0, e)
  {
    hide Exp;
  }

  lemma {:induction false} SmallerDecimal(a: real, b: real, x: real, y: real)
    requires 0.0 <= a <= b && 0.0 < x <= y
    ensures a * x <= b * y
  {
    if x < y { assert a * (y - x) >= 0.0; }
    if a < b { assert (b - a) * y >= 0.0; }
    assert a * x <= a * y <= b * y;
  }

  lemma {:induction false} CoarserBelow(c: nat, n: nat, e: int)
    requires n > 0 && Pow(10, n - 1) <= c
    ensures Decimal(if n == 1 then 0 else Pow(10, n - 2), e + 1) <= Decimal(c, e)
  {
    hide Exp, Pow;
    if n == 1 {
      DecimalZero(e, e + 1);
      DecimalNonNegative(c, e);
    } else {
      CoarseDecimal(Pow(10, n - 2), e, 1);
      PowAdd(10, n - 2, 1);
      Four();
      SmallerDecimal(Pow(10, n - 1) as real, c as real, Exp(10, e), Exp(10, e));
    }
  }

  /** A cached power whose binary exponent is in the range; the choice of the index is the caller's. */
  method GetCachedPowerForBinaryExponentRange(minExponent: int, maxExponent: int, table: seq<DiyFp>, index: nat)
    returns (power: DiyFp, decimalExponent: int)
    requires AccurateTable(table) && index < |table| && minExponent <= table[index].e <= maxExponent
    ensures power == table[index] && decimalExponent == 8 * index - 348
    ensures power.f as int >= TWO63 && HalfUlp(power, decimalExponent) && minExponent <= power.e <= maxExponent
  {
    hide HalfUlp;
    power, decimalExponent := table[index], 8 * index - 348;
  }

  /** The index the lookup finds: a power that brings the double into the target range. */
  ghost predicate InTargetRange(v: Double, table: seq<DiyFp>, index: nat)
  {
    index < |table| && forall w: DiyFp :: IsNormalized(v, w) ==>
      MINIMAL_TARGET_EXPONENT <= w.e + table[index].e + 64 <= MAXIMAL_TARGET_EXPONENT
  }

  ghost predicate IsNormalized(v: Double, w: DiyFp) {
    w.f as int >= TWO63 && w.e <= v.Exponent() - 11 && w.f as int == v.Significand() as int * Pow(2, v.Exponent() - w.e)
  }

  /** A number and its boundaries, normalized and not far apart. */
  predicate Bounded(w: DiyFp, minus: DiyFp, plus: DiyFp) {
    && w.f as int >= TWO63 && plus.f as int >= TWO63 && minus.e == plus.e == w.e && 0 < minus.f <= w.f <= plus.f
    && plus.f as int - minus.f as int >= 1536 && plus.f as int <= TWO64 - 1024
    && plus.f as int <= 0x23_86F2_6FC1_0000 * (plus.f as int - minus.f as int)
  }

  /** The three numbers multiplied by a power that brings them into the target range. */
  ghost predicate Scaled3(w: DiyFp, minus: DiyFp, plus: DiyFp, power: DiyFp, sw: DiyFp, sMinus: DiyFp, sPlus: DiyFp) {
    && power.f as int >= TWO63 && MINIMAL_TARGET_EXPONENT <= w.e + power.e + 64 <= MAXIMAL_TARGET_EXPONENT
    && IsProduct(sw, w, power) && IsProduct(sMinus, minus, power) && IsProduct(sPlus, plus, power)
  }

  lemma {:induction false} ScaledClose(w: DiyFp, minus: DiyFp, plus: DiyFp, power: DiyFp, sw: DiyFp, sMinus: DiyFp,
                                       sPlus: DiyFp)
    requires Bounded(w, minus, plus) && Scaled3(w, minus, plus, power, sw, sMinus, sPlus)
    ensures Close(sMinus, sw, sPlus) && HasRoom(sMinus, sPlus, 17) && FirstPlace(sPlus) <= 10 * (sPlus.f as int + 1)
  {
    hide HasRoom, FirstPlace;
    ProductOrder(minus, w, power, sMinus, sw);
    ProductOrder(w, plus, power, sw, sPlus);
    ProductOrder(minus, plus, power, sMinus, sPlus);
    ProductBelow(plus, power, sPlus);
    WideEnough(minus, plus, power, sMinus, sPlus);
    LowPositive(minus, plus, power, sMinus);
    FirstPlaceFits(sMinus, sPlus);
  }

  lemma {:induction false} LowPositive(minus: DiyFp, plus: DiyFp, power: DiyFp, r: DiyFp)
    requires IsProduct(r, minus, power) && power.f as int >= TWO63 && minus.f >= 1
    ensures r.f > 0
  {
    MulMono(TWO63, power.f as int, minus.f as int);
    MulMono(1, minus.f as int, TWO63);
  }

  lemma {:induction false} ScaledEstimates(w: DiyFp, minus: DiyFp, plus: DiyFp, power: DiyFp, mk: int, sw: DiyFp,
                                           sMinus: DiyFp, sPlus: DiyFp,
                                           lo: real, x: real, hi: real)
    requires Scaled3(w, minus, plus, power, sw, sMinus, sPlus) && HalfUlp(power, mk) && Close(sMinus, sw, sPlus)
    requires Exactly(lo, minus) && Exactly(x, w) && Exactly(hi, plus)
    ensures Estimates(sMinus, lo, Factor(mk, -sw.e)) && Estimates(sw, x, Factor(mk, -sw.e)) &&
            Estimates(sPlus, hi, Factor(mk, -sw.e))
  {
    hide Exp, HalfUlp, Exactly, IsProduct, Factor, Estimates;
    ProductEstimates(lo, minus, power, mk, sMinus);
    ProductEstimates(x, w, power, mk, sw);
    ProductEstimates(hi, plus, power, mk, sPlus);
  }

  lemma {:induction false} NumberExactly(v: Double, w: DiyFp)
    requires v.Finite() && IsNormalized(v, w)
    ensures Exactly(v.Value(), w)
  {
    hide Exp, Pow, Double.Exponent, Double.Significand;
    ShiftedExactly(v.Significand() as int, v.Exponent(), w);
  }

  /** A certain outcome for the scaled numbers is a shortest decimal of the double. */
  lemma {:induction false} CertainIsShortest(v: Double, sw: DiyFp, sMinus: DiyFp, sPlus: DiyFp, mk: int, c: nat,
                                             n: nat, kappa: int)
    requires 0 < v.d64 && v.Finite() && Close(sMinus, sw, sPlus)
    requires Estimates(sMinus, LowerBoundary(v), Factor(mk, -sw.e)) && Estimates(sw, v.Value(), Factor(mk, -sw.e))
    requires Estimates(sPlus, v.UpperBoundary().Value(), Factor(mk, -sw.e))
    requires Outcome(sMinus, sw, sPlus, true, c, kappa) && n > 0 && Pow(10, n - 1) <= c < Pow(10, n)
    ensures IsShortestDecimal(v, c, n, kappa - mk + n)
  {
    hide Exp, Pow, Double.Value, DiyFp.Value, Double.UpperBoundary, Outcome, Estimates, Factor, LowerBoundary, IsBest,
         IsShortestDecimal;
    CertainIsBest(sMinus, sw, sPlus, c, kappa, mk, LowerBoundary(v), v.Value(), v.UpperBoundary().Value());
    BestIsShortest(v, c, n, kappa - mk);
  }

  lemma {:induction false} CloseExponent(low: DiyFp, w: DiyFp, high: DiyFp)
    requires Close(low, w, high)
    ensures w.e <= 0
  {
  }

  /** Whether the digits are certain, as the digit generation tells from the scaled number and its scaled boundaries. */
  ghost predicate Decided(v: Double, power: DiyFp, r: bool, c: int, kappa: int)
    requires 0 < v.d64
  {
    exists w, minus, plus, sw, sMinus, sPlus :: DecidedBy(v, power, r, c, kappa, w, minus, plus, sw, sMinus, sPlus)
  }

  ghost predicate DecidedBy(v: Double, power: DiyFp, r: bool, c: int, kappa: int, w: DiyFp, minus: DiyFp, plus: DiyFp,
                            sw: DiyFp, sMinus: DiyFp, sPlus: DiyFp)
    requires 0 < v.d64
  {
    && Bounded(w, minus, plus) && Exactly(v.Value(), w)
    && Exactly(LowerBoundary(v), minus) && Exactly(v.UpperBoundary().Value(), plus)
    && Scaled3(w, minus, plus, power, sw, sMinus, sPlus) && sw.e <= 0 && Outcome(sMinus, sw, sPlus, r, c, kappa)
  }

  /** What the outcome for the scaled numbers says of the double. */
  lemma {:induction false} OutcomeDecides(v: Double, power: DiyFp, mk: int, r: bool, c: nat, n: nat, kappa: int,
                                          w: DiyFp,
                                          minus: DiyFp, plus: DiyFp, sw: DiyFp, sMinus: DiyFp, sPlus: DiyFp)
    requires 0 < v.d64 && v.Finite() && Bounded(w, minus, plus) && Exactly(v.Value(), w)
    requires Exactly(LowerBoundary(v), minus) && Exactly(v.UpperBoundary().Value(), plus)
    requires Scaled3(w, minus, plus, power, sw, sMinus, sPlus) && HalfUlp(power, mk)
    requires sw.e <= 0 && Outcome(sMinus, sw, sPlus, r, c, kappa) && n > 0 && c < Pow(10, n)
    requires r ==> Pow(10, n - 1) <= c
    ensures Decided(v, power, r, c, kappa)
    ensures r ==> IsShortestDecimal(v, c, n, kappa - mk + n)
  {
    hide Bounded, Exactly, Scaled3, Outcome, LowerBoundary, Double.UpperBoundary, Double.Value, DiyFp.Value, Close,
         HalfUlp,
         HasRoom, FirstPlace, Estimates, Factor, Pow, IsShortestDecimal;
    assert DecidedBy(v, power, r, c, kappa, w, minus, plus, sw, sMinus, sPlus);
    if r {
      ScaledClose(w, minus, plus, power, sw, sMinus, sPlus);
      ScaledEstimates(w, minus, plus, power, mk, sw, sMinus, sPlus, LowerBoundary(v), v.Value(),
                      v.UpperBoundary().Value());
      CertainIsShortest(v, sw, sMinus, sPlus, mk, c, n, kappa);
    }
  }

  /** Grisu3: the digits, rounded and weeded in 64-bit arithmetic, with their decimal exponent. */
  method Grisu3(v: Double, buffer: array<char>, table: seq<DiyFp>, index: nat)
    returns (r: bool, length: nat, decimalExponent: int)
    requires 0 < v.d64 && v.Finite() && AccurateTable(table) && InTargetRange(v, table, index) &&
             buffer.Length >= FAST_DTOA_MAXIMAL_LENGTH
    modifies buffer
    ensures 0 < length <= FAST_DTOA_MAXIMAL_LENGTH && AllDigits(buffer[..length])
    ensures Decided(v, table[index], r, DecimalValue(buffer[..length]), decimalExponent + 8 * index - 348)
    ensures r ==> IsShortestDecimal(v, DecimalValue(buffer[..length]), length, decimalExponent + length)
  {
    hide Exp, Pow, Double.Value, DiyFp.Value, Double.UpperBoundary, Double.Exponent, Double.Significand, DecimalValue,
         HalfUlp, AccurateTable,
         Outcome, HasRoom, FirstPlace, LowerBoundary, IsShortestDecimal, IsProduct, Exactly, Close,
             Double.LowerBoundaryIsCloser, Estimates, Factor, Decided;
    var w := AsNormalizedDiyFp(v);
    var boundaryMinus, boundaryPlus := NormalizedBoundaries(v);
    Spacing(v, w, boundaryMinus, boundaryPlus);
    NumberExactly(v, w);
    UpperExactly(v, boundaryPlus);
    LowerExactly(v, boundaryMinus);
    assert IsNormalized(v, w);
    var tenMk, mk := GetCachedPowerForBinaryExponentRange(MINIMAL_TARGET_EXPONENT - (w.e + 64),
                                                          MAXIMAL_TARGET_EXPONENT - (w.e + 64), table, index);
    var scaledW := Multiply(w, tenMk);
    var scaledBoundaryMinus := Multiply(boundaryMinus, tenMk);
    var scaledBoundaryPlus := Multiply(boundaryPlus, tenMk);
    ScaledClose(w, boundaryMinus, boundaryPlus, tenMk, scaledW, scaledBoundaryMinus, scaledBoundaryPlus);
    CloseExponent(scaledBoundaryMinus, scaledW, scaledBoundaryPlus);
    var kappa;
    r, length, kappa := DigitGen(scaledBoundaryMinus, scaledW, scaledBoundaryPlus, buffer, FAST_DTOA_MAXIMAL_LENGTH);
    decimalExponent := -mk + kappa;
    DecimalBound(buffer[..length]);
    OutcomeDecides(v, tenMk, mk, r, DecimalValue(buffer[..length]), length, kappa, w, boundaryMinus, boundaryPlus,
                   scaledW, scaledBoundaryMinus, scaledBoundaryPlus);
  }

  /** The shortest mode of the fast printer. */
  method FastDtoa(v: Double, buffer: array<char>, table: seq<DiyFp>, index: nat)
    returns (r: bool, length: nat, decimalPoint: int)
    requires 0 < v.d64 && v.Finite() && AccurateTable(table) && InTargetRange(v, table, index) &&
             buffer.Length > FAST_DTOA_MAXIMAL_LENGTH
    modifies buffer
    ensures r ==> 0 < length <= FAST_DTOA_MAXIMAL_LENGTH && AllDigits(buffer[..length]) && buffer[length] == '\0'
    ensures r ==> IsShortestDecimal(v, DecimalValue(buffer[..length]), length, decimalPoint)
    ensures exists c, kappa :: Decided(v, table[index], r, c, kappa)
  {
    hide DecimalValue, AccurateTable, InTargetRange, IsShortestDecimal, Decided;
    var decimalExponent;
    decimalPoint := 0;
    r, length, decimalExponent := Grisu3(v, buffer, table, index);
    if r {
      decimalPoint := length + decimalExponent;
      ghost var digits := buffer[..length];
      buffer[length] := '\0';
      assert buffer[..length] == digits;
    }
  }
}
