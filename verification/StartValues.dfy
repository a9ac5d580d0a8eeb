/** The fraction and deltas a double starts the digit generation with. */
module StartValues {
  import opened Arith
  import opened Limbs
  import opened LimbArith
  import opened Powers
  import opened Bignums
  import opened GenerateDigits
  import opened Shortest

  function Scale(need: bool): nat {
    if need then 2 else 1
  }

  /** Shifts a number whose result is known to fit. */
  method ShiftWithin(x: Bignum, shift: nat, ghost limbs: nat)
    requires x.Valid() && limbs < CAPACITY && x.Value() < BPow(limbs)
    modifies x, x.bigits
    ensures x.Valid() && x.Value() == old(x.Value()) * Pow(2, shift)
  {
    x.LengthBound(limbs);
    x.ShiftLeft(shift);
  }

  method DoubleWithin(x: Bignum, ghost limbs: nat)
    requires x.Valid() && limbs < CAPACITY && x.Value() < BPow(limbs)
    modifies x, x.bigits
    ensures x.Valid() && x.Value() == 2 * old(x.Value())
  {
    hide BPow, Pow, Bignum.Valid, Bignum.Value;
    PowBasics(2);
    ShiftWithin(x, 1, limbs);
  }

  method AssignPowerOfTen(x: Bignum, power: nat)
    requires x.Valid() && power <= 1000
    modifies x, x.bigits
    ensures x.Valid() && x.Value() == Pow(10, power)
  {
    hide BPow, Pow, Bignum.Valid, Bignum.Value;
    TenBits();
    x.AssignPowerUInt16(10, power);
  }

  /** value * 2^shift */
  method AssignShifted(x: Bignum, value: uint64, shift: nat)
    requires x.Valid()
    modifies x, x.bigits
    ensures x.Valid() && x.Value() == value as int * Pow(2, shift)
  {
    hide BPow, Pow, Bignum.Valid, Bignum.Value;
    x.AssignUInt64(value);
    x.ShiftLeft(shift);
  }

  method AssignPowerOfTwo(x: Bignum, shift: nat)
    requires x.Valid()
    modifies x, x.bigits
    ensures x.Valid() && x.Value() == Pow(2, shift)
  {
    hide BPow, Pow, Bignum.Valid, Bignum.Value;
    x.AssignUInt16(1);
    x.ShiftLeft(shift);
  }

  /** The common denominator of two that makes the deltas integers. */
  method DoubleBoth(numerator: Bignum, denominator: Bignum, ghost limbs: nat)
    requires numerator.Valid() && denominator.Valid() && numerator.Apart(denominator) && limbs < CAPACITY
    requires numerator.Value() < BPow(limbs) && denominator.Value() < BPow(limbs)
    modifies numerator, numerator.bigits, denominator, denominator.bigits
    ensures numerator.Valid() && denominator.Valid()
    ensures numerator.Value() == 2 * old(numerator.Value()) && denominator.Value() == 2 * old(denominator.Value())
  {
    hide BPow, Pow, Bignum.Valid, Bignum.Value;
    DoubleWithin(denominator, limbs);
    DoubleWithin(numerator, limbs);
  }

  method MultiplyWithin(x: Bignum, factor: uint64, ghost limbs: nat)
    requires x.Valid() && limbs < CAPACITY && factor as int * x.Value() < BPow(limbs)
    modifies x, x.bigits
    ensures x.Valid() && x.Value() == factor as int * old(x.Value())
  {
    hide BPow;
    x.MantissaBelowValue();
    MulMono(x.Mantissa(), x.Value(), factor as int);
    BPowMono(limbs, x.bigits.Length);
    x.MultiplyByUInt64(factor);
  }

  lemma {:induction false} TenBits()
    ensures BitLength(OddPart(10)) == 3
  {
    assert OddPart(10) == OddPart(5) == 5;
    assert BitLength(5) == 1 + BitLength(2) == 2 + BitLength(1);
  }

  method InitialScaledStartValuesPositiveExponent(
      significand: uint64, exponent: nat, estimatedPower: nat, needBoundaryDeltas: bool,
      numerator: Bignum, denominator: Bignum, deltaMinus: Bignum, deltaPlus: Bignum, ghost limbs: nat)
    requires numerator.Valid() && denominator.Valid() && deltaMinus.Valid() && deltaPlus.Valid()
    requires AllApart(numerator, denominator, deltaMinus, deltaPlus) && limbs < CAPACITY && estimatedPower <= 1000
    requires significand > 0
    requires significand as int * Pow(2, exponent) < BPow(limbs) && Pow(10, estimatedPower) < BPow(limbs)
    modifies numerator, numerator.bigits, denominator, denominator.bigits
    modifies deltaMinus, deltaMinus.bigits, deltaPlus, deltaPlus.bigits
    ensures numerator.Valid() && denominator.Valid() && deltaMinus.Valid() && deltaPlus.Valid()
    ensures numerator.Value() == significand as int * Pow(2, exponent) * Scale(needBoundaryDeltas)
    ensures denominator.Value() == Pow(10, estimatedPower) * Scale(needBoundaryDeltas)
    ensures deltaPlus.Value() == if needBoundaryDeltas then Pow(2, exponent) else old(deltaPlus.Value())
    ensures deltaMinus.Value() == if needBoundaryDeltas then Pow(2, exponent) else old(deltaMinus.Value())
  {
    hide BPow, Pow, Bignum.Valid, Bignum.Value;
    AssignShifted(numerator, significand, exponent);
    AssignPowerOfTen(denominator, estimatedPower);
    if needBoundaryDeltas {
      DoubleBoth(numerator, denominator, limbs);
      AssignPowerOfTwo(deltaPlus, exponent);
      AssignPowerOfTwo(deltaMinus, exponent);
    }
  }

  method InitialScaledStartValuesNegativeExponentPositivePower(
      significand: uint64, exponent: int, estimatedPower: nat, needBoundaryDeltas: bool,
      numerator: Bignum, denominator: Bignum, deltaMinus: Bignum, deltaPlus: Bignum, ghost limbs: nat)
    requires numerator.Valid() && denominator.Valid() && deltaMinus.Valid() && deltaPlus.Valid()
    requires AllApart(numerator, denominator, deltaMinus, deltaPlus) && limbs < CAPACITY && estimatedPower <= 1000
    requires exponent < 0 && Pow(10, estimatedPower) * Pow(2, -exponent) < BPow(limbs)
    modifies numerator, numerator.bigits, denominator, denominator.bigits
    modifies deltaMinus, deltaMinus.bigits, deltaPlus, deltaPlus.bigits
    ensures numerator.Valid() && denominator.Valid() && deltaMinus.Valid() && deltaPlus.Valid()
    ensures numerator.Value() == significand as int * Scale(needBoundaryDeltas)
    ensures denominator.Value() == Pow(10, estimatedPower) * Pow(2, -exponent) * Scale(needBoundaryDeltas)
    ensures deltaPlus.Value() == if needBoundaryDeltas then 1 else old(deltaPlus.Value())
    ensures deltaMinus.Value() == if needBoundaryDeltas then 1 else old(deltaMinus.Value())
  {
    hide BPow, Pow, Bignum.Valid, Bignum.Value;
    numerator.AssignUInt64(significand);
    AssignPowerOfTen(denominator, estimatedPower);
    MulMono(1, Pow(2, -exponent), Pow(10, estimatedPower));
    ShiftWithin(denominator, -exponent, limbs);
    if needBoundaryDeltas {
      DoubleWithin(denominator, limbs);
      PowBasics(2);
      numerator.ShiftLeft(1);
      deltaPlus.AssignUInt16(1);
      deltaMinus.AssignUInt16(1);
    }
  }

  /** The power of ten, and copies of it in the deltas where they are needed. */
  method PowerTenAndDeltas(powerTen: Bignum, power: nat, needBoundaryDeltas: bool, deltaMinus: Bignum,
                           deltaPlus: Bignum)
    requires powerTen.Valid() && deltaMinus.Valid() && deltaPlus.Valid() && power <= 1000
    requires powerTen.Apart(deltaMinus) && powerTen.Apart(deltaPlus) && deltaMinus.Apart(deltaPlus)
    modifies powerTen, powerTen.bigits, deltaMinus, deltaMinus.bigits, deltaPlus, deltaPlus.bigits
    ensures powerTen.Valid() && deltaMinus.Valid() && deltaPlus.Valid()
    ensures powerTen.Value() == Pow(10, power)
    ensures deltaPlus.Value() == if needBoundaryDeltas then Pow(10, power) else old(deltaPlus.Value())
    ensures deltaMinus.Value() == if needBoundaryDeltas then Pow(10, power) else old(deltaMinus.Value())
  {
    hide BPow, Pow, Bignum.Valid, Bignum.Value;
    AssignPowerOfTen(powerTen, power);
    if needBoundaryDeltas {
      deltaPlus.AssignBignum(powerTen);
      deltaMinus.AssignBignum(powerTen);
    }
  }

  /** The numerator serves as the power of ten until the deltas have been copied from it. */
  method InitialScaledStartValuesNegativeExponentNegativePower(
      significand: uint64, exponent: int, estimatedPower: int, needBoundaryDeltas: bool,
      numerator: Bignum, denominator: Bignum, deltaMinus: Bignum, deltaPlus: Bignum, ghost limbs: nat)
    requires numerator.Valid() && denominator.Valid() && deltaMinus.Valid() && deltaPlus.Valid()
    requires AllApart(numerator, denominator, deltaMinus, deltaPlus) && limbs < CAPACITY
    requires -1000 <= estimatedPower < 0 && exponent < 0 && significand > 0
    requires significand as int * Pow(10, -estimatedPower) < BPow(limbs) && Pow(2, -exponent) < BPow(limbs)
    modifies numerator, numerator.bigits, denominator, denominator.bigits
    modifies deltaMinus, deltaMinus.bigits, deltaPlus, deltaPlus.bigits
    ensures numerator.Valid() && denominator.Valid() && deltaMinus.Valid() && deltaPlus.Valid()
    ensures numerator.Value() == significand as int * Pow(10, -estimatedPower) * Scale(needBoundaryDeltas)
    ensures denominator.Value() == Pow(2, -exponent) * Scale(needBoundaryDeltas)
    ensures deltaPlus.Value() == if needBoundaryDeltas then Pow(10, -estimatedPower) else old(deltaPlus.Value())
    ensures deltaMinus.Value() == if needBoundaryDeltas then Pow(10, -estimatedPower) else old(deltaMinus.Value())
  {
    hide BPow, Pow, Bignum.Valid, Bignum.Value;
    PowerTenAndDeltas(numerator, -estimatedPower, needBoundaryDeltas, deltaMinus, deltaPlus);
    MultiplyWithin(numerator, significand, limbs);
    AssignPowerOfTwo(denominator, -exponent);
    if needBoundaryDeltas {
      DoubleBoth(numerator, denominator, limbs);
    }
  }

  function PowIf(b: nat, e: int): nat {
    if e >= 0 then Pow(b, e) else 1
  }

  /** The fraction for f * 2^e / 10^estimatedPower, doubled (and doubled again) so that the deltas are integers. */
  function StartScaled(f: nat, e: int, lowerBoundaryIsCloser: bool, estimatedPower: int, even: bool): Scaled {
    var unit := PowIf(2, e) * PowIf(10, -estimatedPower);
    var k := if lowerBoundaryIsCloser then 2 else 1;
    Scaled(f * unit * (2 * k), PowIf(10, estimatedPower) * PowIf(2, -e) * (2 * k), unit, unit * k, even)
  }

  /** All start values stay far below the capacity. */
  ghost predicate StartFits(f: nat, e: int, estimatedPower: int, limbs: nat) {
    && limbs < CAPACITY && -1000 <= estimatedPower <= 1000
    && 4 * (f * (PowIf(2, e) * PowIf(10, -estimatedPower))) < BPow(limbs)
    && 4 * (PowIf(10, estimatedPower) * PowIf(2, -e)) < BPow(limbs)
  }

  method InitialScaledStartValues(
      significand: uint64, exponent: int, lowerBoundaryIsCloser: bool, estimatedPower: int, needBoundaryDeltas: bool,
      numerator: Bignum, denominator: Bignum, deltaMinus: Bignum, deltaPlus: Bignum, ghost limbs: nat, ghost even: bool)
    requires numerator.Valid() && denominator.Valid() && deltaMinus.Valid() && deltaPlus.Valid()
    requires AllApart(numerator, denominator, deltaMinus, deltaPlus)
    requires significand > 0 && (exponent >= 0 ==> estimatedPower >= 0)
    requires StartFits(significand as int, exponent, estimatedPower, limbs)
    modifies numerator, numerator.bigits, denominator, denominator.bigits
    modifies deltaMinus, deltaMinus.bigits, deltaPlus, deltaPlus.bigits
    ensures numerator.Valid() && denominator.Valid() && deltaMinus.Valid() && deltaPlus.Valid()
    ensures needBoundaryDeltas ==>
              Scaled(numerator.Value(), denominator.Value(), deltaMinus.Value(), deltaPlus.Value(), even)
              == StartScaled(significand as int, exponent, lowerBoundaryIsCloser, estimatedPower, even)
    ensures !needBoundaryDeltas ==>
              && numerator.Value() == significand as int * (PowIf(2, exponent) * PowIf(10, -estimatedPower))
              && denominator.Value() == PowIf(10, estimatedPower) * PowIf(2, -exponent)
              && deltaMinus.Value() == old(deltaMinus.Value()) && deltaPlus.Value() == old(deltaPlus.Value())
  {
    hide BPow, Pow, PowIf, StartScaled, StartFits, Bignum.Valid, Bignum.Value;
    UnscaledStartValues(significand, exponent, estimatedPower, needBoundaryDeltas,
                        numerator, denominator, deltaMinus, deltaPlus, limbs);
    if needBoundaryDeltas {
      ghost var n, d := numerator.Value(), denominator.Value();
      StartScaledIs(significand as int, exponent, lowerBoundaryIsCloser, estimatedPower, even, n, d);
      if lowerBoundaryIsCloser {
        UnitFits(significand as int, exponent, estimatedPower, limbs);
        DoubleAllButMinus(numerator, denominator, deltaPlus, limbs);
      }
    }
  }

  /** The lower boundary of a power of two is at half the distance. */
  method DoubleAllButMinus(numerator: Bignum, denominator: Bignum, deltaPlus: Bignum, ghost limbs: nat)
    requires numerator.Valid() && denominator.Valid() && deltaPlus.Valid() && limbs < CAPACITY
    requires numerator.Apart(denominator) && numerator.Apart(deltaPlus) && denominator.Apart(deltaPlus)
    requires numerator.Value() < BPow(limbs) && denominator.Value() < BPow(limbs) && deltaPlus.Value() < BPow(limbs)
    modifies numerator, numerator.bigits, denominator, denominator.bigits, deltaPlus, deltaPlus.bigits
    ensures numerator.Valid() && denominator.Valid() && deltaPlus.Valid()
    ensures numerator.Value() == 2 * old(numerator.Value()) && denominator.Value() == 2 * old(denominator.Value())
    ensures deltaPlus.Value() == 2 * old(deltaPlus.Value())
  {
    hide BPow, Pow, Bignum.Valid, Bignum.Value;
    DoubleBoth(numerator, denominator, limbs);
    DoubleWithin(deltaPlus, limbs);
  }

  lemma {:induction false} StartScaledIs(f: nat, e: int, closer: bool, estimatedPower: int, even: bool, n: nat, d: nat)
    requires n == f * (PowIf(2, e) * PowIf(10, -estimatedPower)) * 2
    requires d == PowIf(10, estimatedPower) * PowIf(2, -e) * 2
    ensures var k := if closer then 2 else 1;
            var unit := PowIf(2, e) * PowIf(10, -estimatedPower);
            Scaled(k * n, k * d, unit, k * unit, even) == StartScaled(f, e, closer, estimatedPower, even)
  {
    hide PowIf;
  }

  lemma {:induction false} UnitFits(f: nat, e: int, estimatedPower: int, limbs: nat)
    requires f > 0 && StartFits(f, e, estimatedPower, limbs)
    ensures limbs < CAPACITY && PowIf(2, e) * PowIf(10, -estimatedPower) < BPow(limbs)
    ensures f * (PowIf(2, e) * PowIf(10, -estimatedPower)) * 2 < BPow(limbs)
    ensures PowIf(10, estimatedPower) * PowIf(2, -e) * 2 < BPow(limbs)
  {
    hide PowIf, BPow;
    MulMono(1, f, PowIf(2, e) * PowIf(10, -estimatedPower));
  }

  /** The case distinction of InitialScaledStartValues. */
  method UnscaledStartValues(
      significand: uint64, exponent: int, estimatedPower: int, needBoundaryDeltas: bool,
      numerator: Bignum, denominator: Bignum, deltaMinus: Bignum, deltaPlus: Bignum, ghost limbs: nat)
    requires numerator.Valid() && denominator.Valid() && deltaMinus.Valid() && deltaPlus.Valid()
    requires AllApart(numerator, denominator, deltaMinus, deltaPlus)
    requires significand > 0 && (exponent >= 0 ==> estimatedPower >= 0)
    requires StartFits(significand as int, exponent, estimatedPower, limbs)
    modifies numerator, numerator.bigits, denominator, denominator.bigits
    modifies deltaMinus, deltaMinus.bigits, deltaPlus, deltaPlus.bigits
    ensures numerator.Valid() && denominator.Valid() && deltaMinus.Valid() && deltaPlus.Valid()
    ensures numerator.Value() == significand as int * (PowIf(2, exponent) * PowIf(10,
        -estimatedPower)) * Scale(needBoundaryDeltas)
    ensures denominator.Value() == PowIf(10, estimatedPower) * PowIf(2, -exponent) * Scale(needBoundaryDeltas)
    ensures deltaPlus.Value()
         == if needBoundaryDeltas then PowIf(2, exponent) * PowIf(10, -estimatedPower) else old(deltaPlus.Value())
    ensures deltaMinus.Value()
         == if needBoundaryDeltas then PowIf(2, exponent) * PowIf(10, -estimatedPower) else old(deltaMinus.Value())
  {
    hide BPow, Pow, Bignum.Valid, Bignum.Value;
    PowBasics(2);
    PowBasics(10);
    if exponent >= 0 {
      InitialScaledStartValuesPositiveExponent(significand, exponent, estimatedPower, needBoundaryDeltas,
        numerator, denominator, deltaMinus, deltaPlus, limbs);
    } else if estimatedPower >= 0 {
      InitialScaledStartValuesNegativeExponentPositivePower(significand, exponent, estimatedPower, needBoundaryDeltas,
        numerator, denominator, deltaMinus, deltaPlus, limbs);
    } else {
      InitialScaledStartValuesNegativeExponentNegativePower(significand, exponent, estimatedPower, needBoundaryDeltas,
        numerator, denominator, deltaMinus, deltaPlus, limbs);
    }
  }
}
