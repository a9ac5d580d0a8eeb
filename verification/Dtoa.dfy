/** The decimal digits of a double: the shortest that read back, or a number of them rounded half up. */
module Dtoa {
  import opened Arith
  import opened RealPowers
  import opened Limbs
  import opened LimbArith
  import opened Decimals
  import opened Bignums
  import opened Ieee
  import opened Shortest
  import opened GenerateDigits
  import opened CountedDigits
  import opened FixedDigits
  import opened DecimalRounding
  import opened StartValues
  import opened DtoaStart
  import opened DtoaFixup
  import opened OddPowers
  import opened PowerEstimate

  datatype DtoaMode = ShortestMode | FixedMode | PrecisionMode

  ghost function ScaledOf(numerator: Bignum, denominator: Bignum, deltaMinus: Bignum, deltaPlus: Bignum,
                          even: bool): Scaled
    reads numerator, numerator.bigits, denominator, denominator.bigits
    reads deltaMinus, deltaMinus.bigits, deltaPlus, deltaPlus.bigits
  {
    Scaled(numerator.Value(), denominator.Value(), deltaMinus.Value(), deltaPlus.Value(), even)
  }

  /** Multiplies numerator and deltas by ten unless their sum has reached the denominator. */
  method FixupMultiply10(estimatedPower: int, isEven: bool,
                         numerator: Bignum, denominator: Bignum, deltaMinus: Bignum, deltaPlus: Bignum)
    returns (decimalPoint: int)
    requires numerator.Valid() && denominator.Valid() && deltaMinus.Valid() && deltaPlus.Valid()
    requires AllApart(numerator, denominator, deltaMinus, deltaPlus)
    requires Roomy(denominator.Value(), denominator.bigits.Length) && deltaMinus.Value() <= deltaPlus.Value()
    modifies numerator, numerator.bigits, deltaMinus, deltaMinus.bigits, deltaPlus, deltaPlus.bigits
    ensures numerator.Valid() && deltaMinus.Valid() && deltaPlus.Valid()
    ensures ScaledOf(numerator, denominator, deltaMinus, deltaPlus, isEven)
         == FixedUp(old(ScaledOf(numerator, denominator, deltaMinus, deltaPlus, isEven)))
    ensures decimalPoint == PointOf(old(ScaledOf(numerator, denominator, deltaMinus, deltaPlus, isEven)),
                                    estimatedPower)
  {
    hide BPow, Bignum.Valid, Bignum.Value;
    var high := Bignum.PlusCompare(numerator, deltaPlus, denominator);
    var inRange := if isEven then high >= 0 else high > 0;
    if inRange {
      decimalPoint := estimatedPower + 1;
    } else {
      decimalPoint := estimatedPower;
      EqualCapacity(numerator, denominator);
      EqualCapacity(deltaMinus, denominator);
      EqualCapacity(deltaPlus, denominator);
      Times10(numerator);
      var equal := Bignum.Compare(deltaMinus, deltaPlus);
      Times10(deltaMinus);
      if equal == 0 {
        deltaPlus.AssignBignum(deltaMinus);
      } else {
        Times10(deltaPlus);
      }
    }
  }

  lemma {:induction false} EqualCapacity(a: Bignum, b: Bignum)
    requires a.Valid() && b.Valid()
    ensures a.bigits.Length == b.bigits.Length == CAPACITY
  {
  }

  /** The denominators leave room for the factors of ten. */
  lemma {:induction false} StartRoomy(w: Double, estimatedPower: int, limbs: nat, length: nat)
    requires limbs + 2 <= length && StartFits(w.Significand() as int, w.Exponent(), estimatedPower, limbs)
    ensures Roomy(StartOf(w, estimatedPower).den, length)
    ensures Roomy(PowIf(10, estimatedPower) * PowIf(2, -w.Exponent()), length)
  {
    hide BPow, PowIf, Double.Significand, Double.Exponent, Double.LowerBoundaryIsCloser;
    BPowMono(limbs + 2, length);
    BPowStep(limbs);
    BPowStep(limbs + 1);
  }

  /** Start values with boundaries, fixed up: everything the shortest digits need. */
  method ShortestStart(v: Double, estimatedPower: int,
                       numerator: Bignum, denominator: Bignum, deltaMinus: Bignum, deltaPlus: Bignum)
    returns (decimalPoint: int)
    requires 0 < v.d64 && v.Finite() && EstimateContract(v, estimatedPower)
    requires numerator.Valid() && denominator.Valid() && deltaMinus.Valid() && deltaPlus.Valid()
    requires AllApart(numerator, denominator, deltaMinus, deltaPlus)
    modifies numerator, numerator.bigits, denominator, denominator.bigits
    modifies deltaMinus, deltaMinus.bigits, deltaPlus, deltaPlus.bigits
    ensures numerator.Valid() && denominator.Valid() && deltaMinus.Valid() && deltaPlus.Valid()
    ensures var s := ScaledOf(numerator, denominator, deltaMinus, deltaPlus, v.IsEven());
            && Ready(s) && Represents(s, v, decimalPoint) && Roomy(s.den, denominator.bigits.Length)
            && Pow(10, 16) * (s.minus + s.plus) > s.den
  {
    hide BPow, Pow, PowIf, Exp, Bignum.Valid, Bignum.Value, Ready, Represents, EstimateContract, StartFits,
         StartScaled, FixedUp, PointOf;
    hide Double.Significand, Double.Exponent, Double.LowerBoundaryIsCloser, Double.IsEven, Double.Value;
    ghost var limbs := StartValuesFit(v, estimatedPower);
    PowerBounds(v, estimatedPower);
    NonZero(v);
    InitialScaledStartValues(v.Significand(), v.Exponent(), v.LowerBoundaryIsCloser(), estimatedPower, true,
                             numerator, denominator, deltaMinus, deltaPlus, limbs, v.IsEven());
    ghost var s := StartOf(v, estimatedPower);
    assert s == ScaledOf(numerator, denominator, deltaMinus, deltaPlus, v.IsEven());
    EqualCapacity(denominator, denominator);
    StartRoomy(v, estimatedPower, limbs, denominator.bigits.Length);
    MinusBelowPlus(v, estimatedPower);
    decimalPoint := FixupMultiply10(estimatedPower, v.IsEven(), numerator, denominator, deltaMinus, deltaPlus);
    StartRepresents(v, estimatedPower);
    FixupReady(s, v, estimatedPower);
    SeventeenDigits(v, estimatedPower, FixedUp(s));
  }

  lemma {:induction false} NonZero(v: Double)
    requires 0 < v.d64 && v.Finite()
    ensures v.Significand() > 0
  {
    hide Double.Significand;
    PredecessorUnit(v);
  }

  lemma {:induction false} MinusBelowPlus(w: Double, estimatedPower: int)
    ensures StartOf(w, estimatedPower).minus <= StartOf(w, estimatedPower).plus
  {
    hide PowIf, Double.Significand, Double.Exponent, Double.LowerBoundaryIsCloser;
  }

  /** Start values without boundaries, fixed up: a fraction in the first decade. */
  method NumberStart(v: Double, estimatedPower: int,
                     numerator: Bignum, denominator: Bignum, deltaMinus: Bignum, deltaPlus: Bignum)
    returns (decimalPoint: int)
    requires 0 < v.d64 && v.Finite() && EstimateContract(v, estimatedPower)
    requires numerator.Valid() && denominator.Valid() && deltaMinus.Valid() && deltaPlus.Valid()
    requires AllApart(numerator, denominator, deltaMinus, deltaPlus)
    requires deltaMinus.Value() == 0 && deltaPlus.Value() == 0
    modifies numerator, numerator.bigits, denominator, denominator.bigits
    modifies deltaMinus, deltaMinus.bigits, deltaPlus, deltaPlus.bigits
    ensures numerator.Valid() && denominator.Valid()
    ensures denominator.Value() <= numerator.Value() < 10 * denominator.Value()
    ensures Roomy(denominator.Value(), denominator.bigits.Length)
    ensures numerator.Value() as real * Exp(10, decimalPoint - 1) == denominator.Value() as real * v.Value()
    ensures estimatedPower <= decimalPoint <= estimatedPower + 1
  {
    hide BPow, Pow, PowIf, Exp, Bignum.Valid, Bignum.Value, EstimateContract, StartFits, FixedUp, PointOf, Roomy;
    hide Double.Significand, Double.Exponent, Double.LowerBoundaryIsCloser, Double.IsEven, Double.Value;
    ghost var limbs := StartValuesFit(v, estimatedPower);
    PowerBounds(v, estimatedPower);
    NonZero(v);
    InitialScaledStartValues(v.Significand(), v.Exponent(), v.LowerBoundaryIsCloser(), estimatedPower, false,
                             numerator, denominator, deltaMinus, deltaPlus, limbs, v.IsEven());
    ghost var num, den := numerator.Value(), denominator.Value();
    EqualCapacity(denominator, denominator);
    StartRoomy(v, estimatedPower, limbs, denominator.bigits.Length);
    decimalPoint := FixupMultiply10(estimatedPower, v.IsEven(), numerator, denominator, deltaMinus, deltaPlus);
    FirstDecade(v, estimatedPower, num, den);
  }

  /** Without boundaries the test compares the number itself with the power of ten; equality would need an even
      significand. */
  lemma {:induction false} FirstDecade(w: Double, estimatedPower: int, num: nat, den: nat)
    requires 0 < w.d64 && w.Finite() && EstimateContract(w, estimatedPower)
    requires num == w.Significand() as int * (PowIf(2, w.Exponent()) * PowIf(10, -estimatedPower))
    requires den == PowIf(10, estimatedPower) * PowIf(2, -w.Exponent())
    ensures var s := Scaled(num, den, 0, 0, w.IsEven());
            && FixedUp(s).den == den <= FixedUp(s).num < 10 * den
            && estimatedPower <= PointOf(s, estimatedPower) <= estimatedPower + 1
            && FixedUp(s).num as real * Exp(10, PointOf(s, estimatedPower) - 1) == den as real * w.Value()
  {
    hide Exp, Pow, PowIf, Double.Significand, Double.Exponent, DiyFp.Value, Double.UpperBoundary, Double.IsEven;
    var t := Exp(10, estimatedPower);
    UnitRatio(w.Exponent(), estimatedPower);
    ScaledUnit(w.Significand() as int, PowIf(2, w.Exponent()) * PowIf(10, -estimatedPower), den, t,
               Exp(2, w.Exponent()));
    assert num as real * t == den as real * w.Value();
    NumberRange(w, estimatedPower, num, den);
    if !w.IsEven() { OddIsNoPowerOfTen(w, estimatedPower); }
    ExpStep(10, estimatedPower - 1);
    Tenfold(num, Exp(10, estimatedPower - 1));
  }

  lemma {:induction false} NumberRange(w: Double, estimatedPower: int, num: nat, den: nat)
    requires 0 < w.d64 && w.Finite() && EstimateContract(w, estimatedPower) && den > 0
    requires num as real * Exp(10, estimatedPower) == den as real * w.Value()
    ensures den <= 10 * num && num < 10 * den
    ensures num == den <==> w.Value() == Exp(10, estimatedPower)
  {
    hide Exp, Double.Value, DiyFp.Value, Double.UpperBoundary;
    BoundaryIsMidpoint(w);
    ExpStep(10, estimatedPower - 1);
    ExpStep(10, estimatedPower);
    var t, d := Exp(10, estimatedPower), den as real;
    TenTimesReal(den, t, Exp(10, estimatedPower - 1), Exp(10, estimatedPower + 1));
    TenTimesReal(num, t, Exp(10, estimatedPower - 1), Exp(10, estimatedPower + 1));
    Separated(den, 10 * num, Exp(10, estimatedPower - 1), d, Exp(10, estimatedPower - 1), w.Value());
    Separated(num, 10 * den, t, d, w.Value(), Exp(10, estimatedPower + 1));
    Separated(num, den, t, d, w.Value(), t);
    Separated(den, num, t, d, t, w.Value());
  }

  /** 10^(point-1) <= v < 10^point */
  ghost predicate InDecade(v: Double, point: int) {
    Exp(10, point - 1) <= v.Value() < Exp(10, point)
  }

  lemma {:induction false} DecadeUnique(v: Double, p: int, q: int)
    requires InDecade(v, p) && InDecade(v, q)
    ensures p == q
  {
    hide Exp, Double.Value;
    if p < q - 1 { ExpMono(10, p, q - 1); }
    if q < p - 1 { ExpMono(10, q, p - 1); }
  }

  lemma {:induction false} FractionDecade(v: Double, num: nat, den: nat, point: int)
    requires 0 < den <= num < 10 * den && num as real * Exp(10, point - 1) == den as real * v.Value()
    ensures InDecade(v, point)
  {
    hide Exp, Double.Value;
    ExpStep(10, point - 1);
    Tenfold(den, Exp(10, point - 1));
    Separated(den, num, Exp(10, point - 1), den as real, Exp(10, point - 1), v.Value());
    Separated(num, 10 * den, Exp(10, point - 1), den as real, v.Value(), Exp(10, point));
  }

  /** The three kinds of result. */
  ghost predicate IsDtoa(v: Double, mode: DtoaMode, requestedDigits: int, digits: seq<char>, decimalPoint: int)
    requires AllDigits(digits)
  {
    var c, n := DecimalValue(digits), |digits|;
    match mode
    case ShortestMode => n <= 17 && IsShortestDecimal(v, c, n, decimalPoint)
    case FixedMode =>
      (if n > 0 then Pow(10, n - 1) <= c && n <= decimalPoint + requestedDigits
       else decimalPoint == 0 - requestedDigits) &&
       Decimal(c, decimalPoint - n) == RoundedAt(v.Value(), requestedDigits)
    case PrecisionMode =>
      n == requestedDigits > 0 && Pow(10, n - 1) <= c &&
      forall point :: InDecade(v, point) ==>
          Decimal(c, decimalPoint - n) == RoundedAt(v.Value(), requestedDigits - point)
  }

  /** The room the digits and the closing NUL take; fixed digits need the integer part too. */
  ghost predicate BufferFits(v: Double, mode: DtoaMode, requestedDigits: int, size: nat) {
    match mode
    case ShortestMode => size > 17
    case FixedMode => size >= 2 && forall q :: Exp(10, q) <= v.Value() ==> q + 1 + requestedDigits < size
    case PrecisionMode => 0 < requestedDigits < size
  }

  method ShortestDigits(v: Double, estimatedPower: int, buffer: array<char>) returns (length: nat, decimalPoint: int)
    requires 0 < v.d64 && v.Finite() && EstimateContract(v, estimatedPower) && buffer.Length > 17
    modifies buffer
    ensures length <= 17 && AllDigits(buffer[..length])
    ensures IsDtoa(v, ShortestMode, 0, buffer[..length], decimalPoint)
  {
    hide BPow, Pow, Exp, Bignum.Valid, Bignum.Value, Ready, Represents, EstimateContract, IsShortestDecimal, IsShortest;
    hide Double.Value, Double.IsEven, Roomy, DecimalValue;
    var numerator := new Bignum();
    var denominator := new Bignum();
    var deltaMinus := new Bignum();
    var deltaPlus := new Bignum();
    decimalPoint := ShortestStart(v, estimatedPower, numerator, denominator, deltaMinus, deltaPlus);
    ghost var s := ScaledOf(numerator, denominator, deltaMinus, deltaPlus, v.IsEven());
    length := GenerateShortestDigits(numerator, denominator, deltaMinus, deltaPlus, v.IsEven(), buffer, s, 17);
    ShortestReadsBack(s, v, decimalPoint, DecimalValue(buffer[..length]), length);
  }

  lemma {:induction false} FitsPoint(v: Double, mode: DtoaMode, requestedDigits: int, point: int, size: nat)
    requires InDecade(v, point) && BufferFits(v, mode, requestedDigits, size) && mode.FixedMode?
    ensures size >= 2 && point + requestedDigits < size
  {
    hide Exp, Double.Value;
  }

  method PrecisionDigits(v: Double, requestedDigits: nat, point: int, numerator: Bignum, denominator: Bignum,
                         buffer: array<char>)
    returns (length: nat, decimalPoint: int)
    requires numerator.Valid() && denominator.Valid() && numerator.Apart(denominator)
    requires denominator.Value() <= numerator.Value() < 10 * denominator.Value() &&
             Roomy(denominator.Value(), denominator.bigits.Length)
    requires numerator.Value() as real * Exp(10, point - 1) == denominator.Value() as real * v.Value() &&
             0 < requestedDigits < buffer.Length
    modifies numerator, numerator.bigits, buffer
    ensures length < buffer.Length && AllDigits(buffer[..length])
    ensures IsDtoa(v, PrecisionMode, requestedDigits, buffer[..length], decimalPoint)
  {
    hide BPow, Pow, Exp, Bignum.Valid, Bignum.Value, Double.Value, Roomy, DecimalValue, RoundedAt, InDecade,
         HalfUpFraction;
    ghost var num, den := numerator.Value(), denominator.Value();
    FractionDecade(v, num, den, point);
    decimalPoint, length := GenerateCountedDigits(requestedDigits, point, numerator, denominator, buffer);
    ghost var c := DecimalValue(buffer[..length]);
    CountedIsRounded(num, den, point, v.Value(), length, c, decimalPoint != point);
    forall p | InDecade(v, p)
      ensures Decimal(c, decimalPoint - length) == RoundedAt(v.Value(), requestedDigits - p)
    {
      DecadeUnique(v, point, p);
    }
  }

  method NumberDigits(v: Double, mode: DtoaMode, requestedDigits: int, estimatedPower: int, buffer: array<char>)
    returns (length: nat, decimalPoint: int)
    requires 0 < v.d64 && v.Finite() && EstimateContract(v, estimatedPower) && !mode.ShortestMode?
    requires BufferFits(v, mode, requestedDigits, buffer.Length)
    modifies buffer
    ensures length < buffer.Length && AllDigits(buffer[..length])
    ensures IsDtoa(v, mode, requestedDigits, buffer[..length], decimalPoint)
  {
    hide BPow, Pow, Exp, Bignum.Valid, Bignum.Value, EstimateContract, Double.Value, Roomy, DecimalValue;
    hide RoundedAt, InDecade;
    var numerator := new Bignum();
    var denominator := new Bignum();
    var deltaMinus := new Bignum();
    var deltaPlus := new Bignum();
    var point := NumberStart(v, estimatedPower, numerator, denominator, deltaMinus, deltaPlus);
    match mode
    case FixedMode =>
      FractionDecade(v, numerator.Value(), denominator.Value(), point);
      FitsPoint(v, mode, requestedDigits, point, buffer.Length);
      decimalPoint, length := BignumToFixed(requestedDigits, point, numerator, denominator, buffer, v.Value());
    case PrecisionMode =>
      length, decimalPoint := PrecisionDigits(v, requestedDigits, point, numerator, denominator, buffer);
  }

  lemma {:induction false} BelowFixed(v: Double, estimatedPower: int, requestedDigits: int)
    requires v.Finite() && EstimateContract(v, estimatedPower) && -estimatedPower - 1 > requestedDigits
    ensures RoundedAt(v.Value(), requestedDigits) == 0.0
  {
    hide Exp, RoundedAt, Double.Value, DiyFp.Value, Double.UpperBoundary;
    BoundaryIsMidpoint(v);
    if estimatedPower + 1 < -requestedDigits - 1 { ExpMono(10, estimatedPower + 1, -requestedDigits - 1); }
    TooSmall(v.Value(), requestedDigits);
  }

  /** The estimate is within one of the decimal exponent whatever the product was rounded to. */
  method EstimatePower(w: Double, exponent: int, product: real) returns (estimate: int)
    requires 0 < w.d64 && w.Finite() && NearProduct(exponent + 52, product)
    requires Exp(2, exponent + 52) <= w.Value()
    requires (w.Significand() as int + 1) as real * Exp(2, w.Exponent()) <= Exp(2, exponent + 53)
    ensures EstimateContract(w, estimate)
  {
    EstimateMeetsContract(w, exponent, product);
    estimate := Ceil(product);
  }

  /** The result of the floating-point product in the estimate is close to n log10(2), where 2^n <= v < 2^(n+1). */
  ghost predicate ProductFor(v: Double, product: real) {
    forall n :: Exp(2, n) <= v.Value() < Exp(2, n + 1) ==> NearProduct(n, product)
  }

  method DecimalEstimate(v: Double, product: real) returns (estimatedPower: int)
    requires 0 < v.d64 && v.Finite() && ProductFor(v, product)
    ensures EstimateContract(v, estimatedPower)
  {
    hide Exp, EstimateContract, NearProduct, Double.Significand, Double.Exponent;
    NonZero(v);
    SignificandBound(v);
    var normalizedExponent := NormalizedExponent(v.Significand(), v.Exponent());
    BoundaryIsMidpoint(v);
    BoundaryBelowNext(v);
    assert normalizedExponent + 53 == normalizedExponent + 52 + 1;
    estimatedPower := EstimatePower(v, normalizedExponent, product);
  }

  /** Writes the digits of v in the given mode, closed by a NUL character. */
  method BignumDtoa(v: Double, mode: DtoaMode, requestedDigits: int, product: real, buffer: array<char>)
    returns (length: nat, decimalPoint: int)
    requires 0 < v.d64 && v.Finite() && ProductFor(v, product)
    requires BufferFits(v, mode, requestedDigits, buffer.Length)
    modifies buffer
    ensures length < buffer.Length && AllDigits(buffer[..length]) && buffer[length] == '\0'
    ensures IsDtoa(v, mode, requestedDigits, buffer[..length], decimalPoint)
  {
    hide EstimateContract, RoundedAt, DecimalValue, IsShortestDecimal, InDecade, Exp, ProductFor;
    var estimatedPower := DecimalEstimate(v, product);
    if mode.FixedMode? && -estimatedPower - 1 > requestedDigits {
      buffer[0] := '\0';
      length, decimalPoint := 0, -requestedDigits;
      BelowFixed(v, estimatedPower, requestedDigits);
      DecimalEmpty(buffer[..0]);
      return;
    }
    if mode.ShortestMode? {
      length, decimalPoint := ShortestDigits(v, estimatedPower, buffer);
    } else {
      length, decimalPoint := NumberDigits(v, mode, requestedDigits, estimatedPower, buffer);
    }
    ghost var digits := buffer[..length];
    buffer[length] := '\0';
    assert buffer[..length] == digits;
  }
}
