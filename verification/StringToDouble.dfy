/** The parser: a guess from the fast path, corrected by one exact comparison. */
module StringToDouble {
  import opened Arith
  import opened RealPowers
  import opened Powers
  import opened Decimals
  import opened Ieee
  import opened DecimalRounding
  import opened DtoaFixup
  import opened PowerEstimate
  import opened StrtodTrim
  import opened StrtodCompare
  import opened DiyFps
  import opened RoundToDouble
  import opened FastStrtod
  import opened LeastOrder

  lemma {:induction false} TimesTwice(x: real, m: int, n: int)
    ensures ScaledByTens(ScaledByTens(x, m), n) == ScaledByTens(x, m + n)
  {
    hide Exp, Pow;
    ExpAdd(10, m, n);
    RealAssociate(x, Exp(10, m), Exp(10, n));
  }

  lemma {:induction false} TimesMono(x: real, y: real, exponent: int)
    requires x <= y
    ensures ScaledByTens(x, exponent) <= ScaledByTens(y, exponent)
  {
    hide Exp;
    ScaleOrder(y, x, Exp(10, exponent));
  }

  /** The read value with its decimal exponent is the number itself. */
  lemma {:induction false} ReadDecimal(buffer: seq<char>, exponent: int, remaining: nat)
    requires AllDigits(buffer)
    ensures Decimal(DecimalValue(buffer), exponent) == ScaledByTens(ReadValue(buffer, remaining), exponent + remaining)
  {
    hide Exp, Pow, DecimalValue;
    ExpAdd(10, -(remaining as int), exponent + remaining);
    assert -(remaining as int) + (exponent + remaining) == exponent;
    RealAssociate(DecimalValue(buffer) as real, Exp(10, -(remaining as int)), Exp(10, exponent + remaining));
  }

  /** How the read digits bound the number. */
  lemma {:induction false} ReadBounds(buffer: seq<char>, remaining: nat, d: nat)
    requires AllDigits(buffer) && d < TWO64
    requires Within(ReadValue(buffer, remaining), DiyFp(d as uint64, 0), if remaining == 0 then 0 else 4)
    ensures ReadValue(buffer, remaining) <= d as real + 0.5
    ensures remaining == 0 ==> ReadValue(buffer, remaining) == d as real
  {
    hide Pow, Exp, ReadValue;
    ExpZero(2);
  }

  /** Significands below 2^64 times 10^-349 or less round to zero. */
  lemma {:induction false} TinyDecimal(x: real, exponent: int)
    requires 0.0 <= x <= TWO64 as real && exponent <= -349
    ensures ScaledByTens(x, exponent) < Exp(2, -1075) && RoundsTo(ScaledByTens(x, exponent), Double(0))
  {
    hide Exp, Pow, Double.UpperBoundary, DiyFp.Value;
    Convergents();
    Proportion(2, 485, 10, 146, 1139, 348);
    Inverted(10, -348, 2, -1139);
    ExpMono(10, exponent, -348);
    ExpAdd(2, -1139, 64);
    ExpNat(2, 64);
    Pow2Word(64);
    RealProductBelow(Exp(10, exponent), Exp(2, -1139), x, TWO64 as real);
    FirstBoundaries();
  }

  lemma {:induction false} WithinWeaker(x: real, d: DiyFp, error: int, more: int)
    requires Within(x, d, error) && error <= more
    ensures Within(x, d, more)
  {
  }

  /** Scales the read digits by 10^exponent: an adjustment if needed, then the cached power. */
  method ScaleByPowerOfTen(inputIn: DiyFp, errorIn: uint64, exponent: int, length: nat, table: seq<DiyFp>,
                           ghost x: real, ghost d: nat)
    returns (input: DiyFp, error: uint64)
    requires AccurateTable(table) && -348 <= exponent < 348 && errorIn <= 32 && inputIn.f as int >= TWO63 && d < TWO64
    requires IsShifted(inputIn, DiyFp(d as uint64, 0)) && Within(d as real, inputIn, 0) &&
             Within(x, inputIn, errorIn as int)
    requires length < MAX_UINT64_DECIMAL_DIGITS ==> errorIn == 0 && d < Pow(10, length)
    ensures input.f as int >= TWO63 && 0 < error <= 400
    ensures Near(ScaledByTens(x, exponent), input, error as int) && Near(ScaledByTens(d as real, exponent), input, 52)
    ensures d == FIRST_ABOVE && exponent == -342 ==> input.e == -1138
  {
    hide Exp, Pow, Within, Near, AccurateTable, HalfUlp, IsShifted, IsProduct, ScaledByTens, AdjustmentPowerOfTen;
    var power, found := GetCachedPowerForDecimalExponent(exponent, table);
    var adjusted := inputIn;
    error := errorIn;
    ghost var x1, y1 := x, d as real;
    ghost var product: DiyFp;
    if found != exponent {
      adjusted, error := AdjustInput(inputIn, errorIn, exponent - found, length, x, d);
      x1, y1 := ScaledByTens(x, exponent - found), ScaledByTens(d as real, exponent - found);
      TimesTwice(x, exponent - found, found);
      TimesTwice(d as real, exponent - found, found);
    } else {
      WithinWeaker(d as real, inputIn, 0, 4);
    }
    input, error, product := MultiplyByCached(adjusted, error, power, found, x1, y1);
    if d == FIRST_ABOVE && exponent == -342 {
      FirstAboveIsExact(DiyFp(d as uint64, 0), inputIn, adjusted, product, input);
    }
  }

  /** The fast parser: true with the correct double, or false with that double or the one just below. */
  method DiyFpStrtod(buffer: seq<char>, exponentIn: int, table: seq<DiyFp>) returns (result: Double, exact: bool)
    requires AllDigits(buffer) && DecimalValue(buffer) > 0 && |buffer| + exponentIn <= MAX_DECIMAL_POWER &&
             AccurateTable(table)
    ensures CorrectOrBelow(Decimal(DecimalValue(buffer), exponentIn), result)
    ensures exact ==> RoundsTo(Decimal(DecimalValue(buffer), exponentIn), result)
    ensures !exact ==> NearTie(Decimal(DecimalValue(buffer), exponentIn), result)
  {
    hide Exp, Pow, Within, Near, AccurateTable, IsShifted, ScaledByTens, ReadValue, CorrectOrBelow, RoundsTo, Decimal,
         DecimalValue, NearTie;
    ghost var x := Decimal(DecimalValue(buffer), exponentIn);
    var input, remainingDecimals, error;
    ghost var d;
    input, remainingDecimals, error, d := ReadInput(buffer);
    var exponent := exponentIn + remainingDecimals;
    ReadDecimal(buffer, exponentIn, remainingDecimals);
    ReadBounds(buffer, remainingDecimals, d);
    DecimalNonNegative(DecimalValue(buffer), exponentIn);
    if exponent < MIN_CACHED_EXPONENT {
      ReadNonNegative(buffer, remainingDecimals);
      TinyDecimal(ReadValue(buffer, remainingDecimals), exponent);
      CorrectIsEither(x, Double(0));
      return Double(0), true;
    }
    DecimalBound(buffer);
    input, error := ScaleByPowerOfTen(input, error, exponent, |buffer|, table, ReadValue(buffer, remainingDecimals), d);
    TimesMono(ReadValue(buffer, remainingDecimals), d as real + 0.5, exponent);
    if input.e == -1139 { NotAboveHalf(d, exponent, x, input, remainingDecimals > 0); }
    result, exact := RoundInput(input, error, x);
  }

  lemma {:induction false} ReadNonNegative(buffer: seq<char>, remaining: nat)
    requires AllDigits(buffer)
    ensures ReadValue(buffer, remaining) >= 0.0
  {
    hide Exp, DecimalValue;
    NonNegative(DecimalValue(buffer) as real, Exp(10, -(remaining as int)));
  }

  /** What the hardware path reports: nothing, or a double it has computed with one correctly rounded operation. */
  datatype Hardware = Declined | Computed(result: Double)

  lemma {:induction false} EmptyIsZero(exponent: int)
    ensures RoundsTo(Decimal(0, exponent), Double(0))
  {
    hide Exp, Pow;
    ZeroAndOne(Exp(2, -1074));
    ValueRoundsToItself(Double(0));
  }

  /** 10^309 and more is infinity. */
  lemma {:induction false} HugeIsInfinity(s: seq<char>, exponent: int)
    requires AllDigits(s) && |s| > 0 && s[0] != '0' && exponent + |s| - 1 >= MAX_DECIMAL_POWER
    ensures RoundsTo(Decimal(DecimalValue(s), exponent), Double(INFINITY))
  {
    hide Exp, Pow, Decimal, DecimalValue, Double.UpperBoundary, DiyFp.Value, Double.Value;
    DecimalAtLeast(s, exponent);
    DecimalNonNegative(DecimalValue(s), exponent);
    if |s| - 1 + exponent > 309 { ExpMono(10, 309, |s| - 1 + exponent); }
    HugeDecimal();
    BoundaryIsMidpoint(Double(INFINITY - 1));
    InfinityValue(Double(INFINITY));
  }

  /** The number of digits bounds the number from both sides. */
  lemma {:induction false} DecimalAtLeast(s: seq<char>, exponent: int)
    requires AllDigits(s) && |s| > 0 && s[0] != '0'
    ensures Decimal(DecimalValue(s), exponent) >= Exp(10, |s| - 1 + exponent)
  {
    hide Exp, Pow, DecimalValue;
    LeadingDigit(s);
    ExpNat(10, |s| - 1);
    ExpAdd(10, |s| - 1, exponent);
    AtMostScaled(Pow(10, |s| - 1) as real, DecimalValue(s) as real, Exp(10, exponent));
  }

  lemma {:induction false} DecimalBelow(s: seq<char>, exponent: int)
    requires AllDigits(s)
    ensures Decimal(DecimalValue(s), exponent) < Exp(10, |s| + exponent)
  {
    hide Exp, Pow, DecimalValue;
    DecimalBound(s);
    ExpNat(10, |s|);
    ExpAdd(10, |s|, exponent);
    ScaleOrder(DecimalValue(s) as real, Pow(10, |s|) as real, Exp(10, exponent));
  }

  lemma {:induction false} AtMostScaled(a: real, b: real, t: real)
    requires a <= b && t > 0.0
    ensures a * t <= b * t
  {
    ScaleOrder(b, a, t);
  }

  /** 10^-324 and less is zero. */
  lemma {:induction false} SmallIsZero(s: seq<char>, exponent: int)
    requires AllDigits(s) && exponent + |s| <= MIN_DECIMAL_POWER
    ensures RoundsTo(Decimal(DecimalValue(s), exponent), Double(0))
  {
    hide Exp, Pow, Decimal, DecimalValue, Double.UpperBoundary, DiyFp.Value;
    DecimalBelow(s, exponent);
    if |s| + exponent < -324 { ExpMono(10, |s| + exponent, -324); }
    HugeDecimal();
    assert -(-324) == 324 && -(-1075) == 1075;
    Inverted(10, -324, 2, -1075);
    DecimalNonNegative(DecimalValue(s), exponent);
    FirstBoundaries();
  }

  lemma {:induction false} NonzeroDigits(s: seq<char>)
    requires AllDigits(s) && |s| > 0 && s[0] != '0'
    ensures DecimalValue(s) > 0
  {
    hide DecimalValue;
    ZerosValue(s);
  }

  /** True with the correct double, or false with that double or the one just below. */
  method ComputeGuess(trimmed: seq<char>, exponent: int, hardware: Hardware, table: seq<DiyFp>)
    returns (guess: Double, correct: bool)
    requires AllDigits(trimmed) && Trimmed(trimmed) && AccurateTable(table)
    requires hardware.Computed? ==> RoundsTo(Decimal(DecimalValue(trimmed), exponent), hardware.result)
    ensures CorrectOrBelow(Decimal(DecimalValue(trimmed), exponent), guess)
    ensures correct ==> RoundsTo(Decimal(DecimalValue(trimmed), exponent), guess)
    ensures !correct ==> NearTie(Decimal(DecimalValue(trimmed), exponent), guess)
    ensures !correct ==> guess != Double(INFINITY) && MIN_DECIMAL_POWER < |trimmed| + exponent <= MAX_DECIMAL_POWER
  {
    hide DecimalValue, Decimal, RoundsTo, CorrectOrBelow, AccurateTable, NearTie;
    ghost var x := Decimal(DecimalValue(trimmed), exponent);
    guess, correct := Double(0), true;
    if |trimmed| == 0 {
      DecimalEmpty(trimmed);
      EmptyIsZero(exponent);
    } else if exponent + |trimmed| - 1 >= MAX_DECIMAL_POWER {
      HugeIsInfinity(trimmed, exponent);
      guess := Double(INFINITY);
    } else if exponent + |trimmed| <= MIN_DECIMAL_POWER {
      SmallIsZero(trimmed, exponent);
    } else if hardware.Computed? {
      guess := hardware.result;
    } else {
      NonzeroDigits(trimmed);
      guess, correct := DiyFpStrtod(trimmed, exponent, table);
      if guess == Double(INFINITY) {
        NothingAbove(x);
        correct := true;
      }
    }
    if correct { CorrectIsEither(x, guess); }
  }

  lemma {:induction false} NothingAbove(x: real)
    requires CorrectOrBelow(x, Double(INFINITY))
    ensures RoundsTo(x, Double(INFINITY))
  {
    hide RoundsTo;
  }

  /** The comparison with the upper boundary settles which of the two doubles is correct; ties go to the even one. */
  lemma {:induction false} BoundaryDecides(x: real, guess: Double)
    requires CorrectOrBelow(x, guess) && guess != Double(INFINITY)
    ensures guess.Finite()
    ensures x < guess.UpperBoundary().Value() ==> RoundsTo(x, guess)
    ensures x > guess.UpperBoundary().Value() ==> RoundsTo(x, Double(guess.d64 + 1))
    ensures x == guess.UpperBoundary().Value() ==> RoundsTo(x, if guess.IsEven() then guess else Double(guess.d64 + 1))
  {
    hide Double.UpperBoundary, DiyFp.Value, Double.IsEven;
    SuccessorValue(guess);
  }

  /** The double nearest to the decimal that buffer and exponent denote. */
  method Strtod(buffer: seq<char>, exponentIn: int, hardware: Hardware, table: seq<DiyFp>) returns (r: Double)
    requires AllDigits(buffer) && AccurateTable(table)
    requires hardware.Computed? ==> RoundsTo(Decimal(DecimalValue(buffer), exponentIn), hardware.result)
    ensures RoundsTo(Decimal(DecimalValue(buffer), exponentIn), r)
  {
    hide DecimalValue, Decimal, RoundsTo, CorrectOrBelow, AccurateTable, SameSide, DiyFp.Value, Double.UpperBoundary,
         Double.Significand;
    var copyBuffer := new char[MAX_SIGNIFICANT_DECIMAL_DIGITS];
    var trimmed, exponent := TrimAndCut(buffer, exponentIn, copyBuffer);
    ghost var x, y := Decimal(DecimalValue(buffer), exponentIn), Decimal(DecimalValue(trimmed), exponent);
    DecimalNonNegative(DecimalValue(buffer), exponentIn);
    DecimalNonNegative(DecimalValue(trimmed), exponent);
    if hardware.Computed? { SameSideRounding(x, y, hardware.result); }
    var guess, isCorrect := ComputeGuess(trimmed, exponent, hardware, table);
    if isCorrect {
      SameSideRounding(x, y, guess);
      return guess;
    }
    BoundaryDecides(y, guess);
    NextIsSuccessor(guess);
    SameSideRounding(x, y, guess);
    SameSideRounding(x, y, Double(guess.d64 + 1));
    var comparison := CompareBufferWithDiyFp(trimmed, exponent, guess.UpperBoundary());
    if comparison < 0 {
      return guess;
    } else if comparison > 0 {
      return guess.NextDouble();
    } else if guess.Significand() % 2 == 0 {
      return guess;
    } else {
      return guess.NextDouble();
    }
  }

  lemma {:induction false} NextIsSuccessor(d: Double)
    requires d.Finite()
    ensures d.NextDouble() == Double(d.d64 + 1)
  {
  }
}
