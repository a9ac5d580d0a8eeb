/** A requested number of digits in 64-bit arithmetic, rounded where the error of the number leaves no doubt. */
module FastCounted {
  import opened Arith
  import opened Decimals
  import opened DiyFps
  import opened Ieee
  import opened PowerGuess
  import opened DigitGeneration
  import opened CountedDigits

  /** Adds one to the number the digits denote; a carry out of the first digit leaves a one followed by zeros. */
  method IncrementLast(buffer: array<char>, length: nat) returns (overflow: bool)
    requires 0 < length <= buffer.Length && AllDigits(buffer[..length])
    modifies buffer
    ensures AllDigits(buffer[..length])
    ensures DecimalValue(buffer[..length]) * (if overflow then 10 else 1) == old(DecimalValue(buffer[..length])) + 1
    ensures overflow ==> DecimalValue(buffer[..length]) == Pow(10, length - 1)
  {
    hide CarryValue, DecimalValue, Pow;
    ghost var s := buffer[..length];
    var d := (buffer[length - 1] as int + 1) as char;
    CarryIsDecimal(s);
    CarryUpdate(s, length - 1, d);
    PowBasics(10);
    buffer[length - 1] := d;
    assert buffer[..length] == s[length - 1 := d];
    overflow := PropagateDigitCarry(buffer, length);
    if overflow { OverflowValue(length); }
  }

  /** The true rest, less than a unit from `rest`, is clearly below half a step; or it is clearly above. */
  predicate ClearlyDown(rest: int, step: int, unit: int) {
    2 * unit < step && 2 * (rest + unit) <= step
  }

  predicate ClearlyUp(rest: int, step: int, unit: int) {
    2 * unit < step && 2 * (rest - unit) >= step
  }

  /** Rounds if the direction is certain; a carry out of the first digit increases kappa. */
  method RoundWeedCounted(buffer: array<char>, length: nat, rest: uint64, tenKappa: uint64, unit: uint64, kappaIn: int)
    returns (r: bool, kappa: int)
    requires 0 < length <= buffer.Length && AllDigits(buffer[..length]) && rest < tenKappa && unit > 0
    modifies buffer
    ensures AllDigits(buffer[..length])
    ensures r <==>
              ClearlyDown(rest as int, tenKappa as int, unit as int) ||
              ClearlyUp(rest as int, tenKappa as int, unit as int)
    ensures ClearlyDown(rest as int, tenKappa as int, unit as int) ==>
            kappa == kappaIn && buffer[..length] == old(buffer[..length])
    ensures ClearlyUp(rest as int, tenKappa as int, unit as int) ==>
              && kappaIn <= kappa <= kappaIn + 1
              && DecimalValue(buffer[..length]) * (if kappa == kappaIn then 1
                                                   else 10) == old(DecimalValue(buffer[..length])) + 1
              && (kappa != kappaIn ==> DecimalValue(buffer[..length]) == Pow(10, length - 1))
  {
    hide DecimalValue;
    kappa := kappaIn;
    if unit >= tenKappa {
      return false, kappa;
    }
    if tenKappa - unit <= unit {
      return false, kappa;
    }
    if tenKappa - rest > rest && tenKappa - 2 * rest >= 2 * unit {
      return true, kappa;
    }
    if rest > unit && tenKappa - (rest - unit) <= rest - unit {
      var overflow := IncrementLast(buffer, length);
      if overflow {
        kappa := kappa + 1;
      }
      return true, kappa;
    }
    return false, kappa;
  }

  /** The digits so far and what is left of the number; step is the weight of the last digit. */
  ghost predicate Counting(w: DiyFp, buffer: seq<char>, length: nat, step: int, unit: int, rest: int) {
    && length <= |buffer| && AllDigits(buffer[..length]) &&
        Generated(w.f as int, DecimalValue(buffer[..length]), step, unit, rest)
    && (length > 0 ==> Pow(10, length - 1) <= DecimalValue(buffer[..length]))
  }

  /** If the digits are a one and zeros, the number is clearly above what they denote, or the unit is very small. */
  ghost predicate ClearOfDecade(c: int, length: nat, step: int, unit: int, rest: int) {
    length > 0 && c == Pow(10, length - 1) ==> 20 * unit <= step || rest > unit
  }

  /** The outcome when all requested digits have been generated: c0 are the digits before rounding. */
  ghost predicate CountedOutcome(w: DiyFp, r: bool, c: nat, length: nat, kappa: int, c0: nat, kappa0: int, rest: int)
    requires w.e <= 0
  {
    var step, unit := StepOf(kappa0, Pow(2, -w.e)), UnitOf(kappa0);
    && length > 0 && Pow(10, length - 1) <= c0 < Pow(10, length) && Generated(w.f as int, c0, step, unit, rest)
    && ClearOfDecade(c0, length, step, unit, rest)
    && (r <==> ClearlyDown(rest, step, unit) || ClearlyUp(rest, step, unit))
    && (ClearlyDown(rest, step, unit) ==> kappa == kappa0 && c == c0)
    && (ClearlyUp(rest, step, unit) ==>
           kappa0 <= kappa <= kappa0 + 1 && c * (if kappa == kappa0 then 1 else 10) == c0 + 1 &&
               (kappa != kappa0 ==> c == Pow(10, length - 1)))
  }

  /** The digits so far leave no more of the number than its error, so no further digit can be told. */
  ghost predicate Exhausted(w: DiyFp, c: nat, kappa: int)
    requires w.e <= 0
  {
    LeavesNothing(w.f as int, c, StepOf(kappa, Pow(2, -w.e)), UnitOf(kappa))
  }

  ghost predicate LeavesNothing(top: int, c: int, step: int, unit: int) {
    exists rest :: Generated(top, c, step, unit, rest) && rest <= unit
  }

  method FinishCounted(w: DiyFp, buffer: array<char>, length: nat, rest: uint64, tenKappa: uint64, unit: uint64,
                       kappaIn: int, ghost c0: nat)
    returns (r: bool, kappa: int)
    requires -60 <= w.e <= -32 && 0 < length <= buffer.Length && unit > 0
    requires tenKappa as int == StepOf(kappaIn, Pow(2, -w.e)) && unit as int == UnitOf(kappaIn)
    requires Counting(w, buffer[..], length, tenKappa as int, unit as int, rest as int) &&
             c0 == DecimalValue(buffer[..length])
    requires ClearOfDecade(c0, length, tenKappa as int, unit as int, rest as int)
    modifies buffer
    ensures AllDigits(buffer[..length]) &&
            CountedOutcome(w, r, DecimalValue(buffer[..length]), length, kappa, c0, kappaIn, rest as int)
  {
    hide DecimalValue, Pow, StepOf, UnitOf, ClearlyDown, ClearlyUp, ClearOfDecade;
    DecimalBound(buffer[..length]);
    r, kappa := RoundWeedCounted(buffer, length, rest, tenKappa, unit, kappaIn);
  }

  lemma {:induction false} NextPlace(c: int, length: nat)
    requires length > 0 && Pow(10, length - 1) <= c
    ensures Pow(10, length) <= c * 10
  {
  }

  /** One more digit of what is left. */
  lemma {:induction false} CountDigit(w: DiyFp, before: seq<char>, after: seq<char>, length: nat, step: int, unit: int,
                                      rest: int, digit: int)
    requires step > 0 && Counting(w, before, length, 10 * step, unit, rest) && length < |before|
    requires digit == rest / step && 0 <= digit <= 9 && after == before[length := ('0' as int + digit) as char]
    requires length == 0 ==> digit > 0
    ensures Counting(w, after, length + 1, step, unit, rest % step)
    ensures DecimalValue(after[..length + 1]) == DecimalValue(before[..length]) * 10 + digit &&
            rest == digit * step + rest % step
  {
    hide Pow, DecimalValue;
    AppendDigit(before, after, length, digit);
    UpperDigits2(DecimalValue(before[..length]), digit, step);
    QuotientOf(rest, step);
    if length == 0 {
      PowBasics(10);
    } else {
      NextPlace(DecimalValue(before[..length]), length);
    }
  }

  lemma {:induction false} FirstIsPositive(rest: int, step: int)
    requires step > 0 && rest >= step
    ensures rest / step > 0
  {
    var q := rest / step;
    assert rest == q * step + rest % step;
    if q <= 0 { MulMono(q, 0, step); }
  }

  /** The integral part of a number of at least 2^62 has as many digits as the guess says. */
  lemma {:induction false} StartCounting(w: DiyFp, buffer: seq<char>, one: int, kappa: nat, power: int)
    requires -60 <= w.e <= -32 && w.f as int >= TWO63 / 2 && one == Pow(2, -w.e) &&
             kappa == Digits(w.f as int / one, 64 + w.e)
    requires power == SmallPower(kappa) && (w.f as int / one < 10 * power || w.f as int / one == 0)
    ensures kappa > 0 && Counting(w, buffer, 0, Pow(10, kappa) * one, 1, w.f as int / one * one + w.f as int % one)
    ensures power * one <= w.f as int / one * one + w.f as int % one
  {
    hide Pow, SmallPower, Digits;
    DecimalEmpty(buffer[..0]);
    var top, s := w.f as int, -w.e;
    ShiftedOne(s);
    IntegralPart(top, s);
    PowAdd(2, 64 - s - 2, 2);
    TwosUpTo(2);
    QuarterOf(top, one, Pow(2, 64 - s - 2));
    ContractMetByLength(top / one, 64 - s);
    TensStart(kappa);
    TensStart(0);
    BelowFirst(top / one, Pow(10, kappa), one, top % one);
    MulMono(power, top / one, one);
  }

  /** Small units: in the integral part the unit is one and a step at least 2^32. */
  lemma {:induction false} IntegralClear(c: int, length: nat, divisor: int, one: int, rest: int)
    requires divisor > 0 && one >= 0x1_0000_0000
    ensures ClearOfDecade(c, length, divisor * one, 1, rest)
  {
    MulMono(1, divisor, one);
  }

  /** After the point a one and zeros mean that the rest was greater than the error before the last digit. */
  lemma {:induction false} FractionClear(c: int, c1: int, digit: int, length: nat, step: int, unit: int, left: int,
                                         rest: int)
    requires length > 1 && Pow(10, length - 2) <= c1 && c == c1 * 10 + digit && 0 <= digit && left > unit &&
             10 * left == digit * step + rest
    ensures ClearOfDecade(c, length, step, unit * 10, rest)
  {
    NextPlace(c1, length - 1);
  }

  lemma {:induction false} CountedFits(w: DiyFp, buffer: seq<char>, length: nat, step: int, rest: int)
    requires Counting(w, buffer, length, step, 1, rest) && length > 0
    ensures rest <= w.f as int && step <= w.f as int
  {
    hide Pow, DecimalValue;
    PositiveValue(buffer, length);
    RestFits(w.f as int, DecimalValue(buffer[..length]), step, rest);
    MulMono(1, DecimalValue(buffer[..length]), step);
  }

  lemma {:induction false} PositiveValue(buffer: seq<char>, length: nat)
    requires 0 < length <= |buffer| && AllDigits(buffer[..length]) &&
             Pow(10, length - 1) <= DecimalValue(buffer[..length])
    ensures DecimalValue(buffer[..length]) >= 1
  {
    hide DecimalValue;
  }

  /** The state of the fraction loop gives what the rounding needs. */
  lemma {:induction false} CountingRest(w: DiyFp, buffer: seq<char>, length: nat, step: int, unit: int, rest: int)
    requires Counting(w, buffer, length, step, unit, rest)
    ensures 0 <= rest < step && AllDigits(buffer[..length])
    ensures length > 0 ==> Pow(10, length - 1) <= DecimalValue(buffer[..length])
  {
    hide Pow, DecimalValue;
  }

  /** The digits after the decimal point, as long as what is left exceeds the error. */
  method CountedFraction(w: DiyFp, requestedDigits: nat, one: uint64, fractionalsIn: uint64, lengthIn: nat,
                         buffer: array<char>)
    returns (r: bool, length: nat, kappa: int, ghost c0: nat, ghost kappa0: int, ghost rest: int)
    requires -60 <= w.e <= -32 && one as int == Pow(2, -w.e) && 0 < one <= 0x1000_0000_0000_0000
    requires 0 < lengthIn < requestedDigits <= buffer.Length &&
             Counting(w, buffer[..], lengthIn, one as int, 1, fractionalsIn as int)
    modifies buffer
    ensures 0 < length <= requestedDigits && AllDigits(buffer[..length])
    ensures length < requestedDigits ==> !r && Exhausted(w, DecimalValue(buffer[..length]), kappa)
    ensures length == requestedDigits ==>
            CountedOutcome(w, r, DecimalValue(buffer[..length]), length, kappa, c0, kappa0, rest)
  {
    hide DecimalValue, Pow, StepOf, UnitOf, Counting, CountedOutcome, ClearOfDecade, Exhausted;
    var wError: uint64, fractionals, remaining := 1, fractionalsIn, requestedDigits - lengthIn;
    length, kappa := lengthIn, 0;
    FractionScale(0, one as int);
    TensStart(0);
    CountingRest(w, buffer[..], length, one as int, 1, fractionalsIn as int);
    while remaining > 0 && fractionals > wError
      invariant remaining >= 0 && length + remaining == requestedDigits && lengthIn <= length &&
                kappa == lengthIn - length
      invariant wError > 0 && wError as int == UnitOf(kappa)
      invariant Counting(w, buffer[..], length, one as int, wError as int, fractionals as int)
      invariant length <= buffer.Length && AllDigits(buffer[..length])
      invariant length > lengthIn ==> ClearOfDecade(DecimalValue(buffer[..length]), length, one as int, wError as int,
                                                    fractionals as int)
      decreases remaining
    {
      CountingRest(w, buffer[..], length, one as int, wError as int, fractionals as int);
      FractionScale(kappa, one as int);
      ghost var before, left, unit := buffer[..], fractionals as int, wError as int;
      QuotientOf(10 * left, one as int);
      CountTenFold(w, before, length, one as int, unit, left);
      fractionals, wError := fractionals * 10, wError * 10;
      var digit := fractionals / one;
      buffer[length] := ('0' as int + digit as int) as char;
      CountDigit(w, before, buffer[..], length, one as int, 10 * unit, 10 * left, digit as int);
      CountingRest(w, buffer[..], length + 1, one as int, 10 * unit, (fractionals % one) as int);
      FractionClear(DecimalValue(buffer[..length + 1]), DecimalValue(before[..length]), digit as int, length + 1,
                    one as int, unit, left, (fractionals % one) as int);
      length := length + 1;
      remaining := remaining - 1;
      fractionals := fractionals % one;
      kappa := kappa - 1;
    }
    if remaining != 0 {
      NothingLeft(w, buffer[..], length, one as int, wError as int, fractionals as int, kappa);
      return false, length, kappa, 0, kappa, 0;
    }
    kappa0, rest, c0 := kappa, fractionals as int, DecimalValue(buffer[..length]);
    FractionScale(kappa, one as int);
    r, kappa := FinishCounted(w, buffer, length, fractionals, one, wError, kappa, c0);
  }

  lemma {:induction false} NothingLeft(w: DiyFp, buffer: seq<char>, length: nat, one: int, unit: int, rest: int,
                                       kappa: int)
    requires w.e <= 0 && Counting(w, buffer, length, one, unit, rest) && rest <= unit
    requires one == Pow(2, -w.e) && kappa <= 0 && unit == UnitOf(kappa)
    ensures Exhausted(w, DecimalValue(buffer[..length]), kappa)
  {
    hide Pow, DecimalValue;
    FractionScale(kappa, one);
  }

  lemma {:induction false} CountTenFold(w: DiyFp, buffer: seq<char>, length: nat, step: int, unit: int, rest: int)
    requires Counting(w, buffer, length, step, unit, rest)
    ensures Counting(w, buffer, length, 10 * step, 10 * unit, 10 * rest)
  {
    hide Pow, DecimalValue;
    TenOut(w.f as int, unit);
    TenOut(DecimalValue(buffer[..length]), step);
  }

  lemma {:induction false} CountedNothingIntegral(w: DiyFp, buffer: seq<char>, length: nat, one: int, integrals: int,
                                                  fractionals: int)
    requires integrals >= 0 && one > 0 && fractionals >= 0 &&
             Counting(w, buffer, length, Pow(10, 0) * one, 1, integrals * one + fractionals)
    ensures integrals == 0 && Counting(w, buffer, length, one, 1, fractionals)
  {
    hide Pow, DecimalValue;
    TensStart(0);
    if integrals > 0 { MulMono(1, integrals, one); }
  }

  lemma {:induction false} CountIntegral(w: DiyFp, before: seq<char>, length: nat, kappa: nat, one: nat,
                                         integrals: int, fractionals: int, divisor: int)
    requires kappa > 0 && one > 0 && divisor == SmallPower(kappa) && 0 <= fractionals < one && integrals >= 0
    requires Counting(w, before, length, Pow(10, kappa) * one, 1, integrals * one + fractionals)
    ensures divisor > 0 && 0 <= integrals / divisor <= 9 && divisor * one > 0 &&
            Pow(10, kappa) * one == 10 * (divisor * one)
    ensures integrals / divisor == (integrals * one + fractionals) / (divisor * one)
    ensures integrals % divisor * one + fractionals == (integrals * one + fractionals) % (divisor * one)
  {
    hide Pow, DecimalValue;
    PlacesStep(kappa, one);
    SmallPositive(kappa);
    ShiftedQuotient(integrals, divisor, one, fractionals);
    QuotientOf(integrals * one + fractionals, divisor * one);
  }

  lemma {:induction false} LeadingIsPositive(integrals: int, divisor: int, one: int, fractionals: int)
    requires divisor > 0 && one > 0 && divisor * one > 0 &&
             integrals / divisor == (integrals * one + fractionals) / (divisor * one)
    requires divisor * one <= integrals * one + fractionals
    ensures integrals / divisor > 0
  {
    FirstIsPositive(integrals * one + fractionals, divisor * one);
  }

  /** Generates the requested digits of w, whose error is less than a unit, and rounds them if that is certain. */
  method DigitGenCounted(w: DiyFp, requestedDigits: nat, buffer: array<char>)
    returns (r: bool, length: nat, kappa: int, ghost c0: nat, ghost kappa0: int, ghost rest: int)
    requires -60 <= w.e <= -32 && w.f as int >= TWO63 / 2 && 0 < requestedDigits <= buffer.Length
    modifies buffer
    ensures 0 < length <= requestedDigits && AllDigits(buffer[..length])
    ensures length < requestedDigits ==> !r && Exhausted(w, DecimalValue(buffer[..length]), kappa)
    ensures length == requestedDigits ==>
            CountedOutcome(w, r, DecimalValue(buffer[..length]), length, kappa, c0, kappa0, rest)
  {
    hide DecimalValue, Pow, SmallPower, Digits, StepOf, UnitOf, Counting, CountedOutcome, ClearOfDecade, Exhausted;
    ShiftedOne(-w.e);
    IntegralPart(w.f as int, -w.e);
    var one := Pow(2, -w.e) as uint64;
    var integrals, fractionals := (w.f / one) as uint32, w.f % one;
    var divisor, exponent := BiggestPowerTen(integrals, (64 + w.e) as nat);
    StartCounting(w, buffer[..], one as int, exponent, divisor as int);
    kappa := exponent;
    length := 0;
    var remaining := requestedDigits;
    while kappa > 0
      invariant 0 <= kappa && divisor as int == SmallPower(kappa) && fractionals < one &&
                length + remaining == requestedDigits && remaining > 0
      invariant Counting(w, buffer[..], length, Pow(10, kappa) * one as int, 1,
                         integrals as int * one as int + fractionals as int)
      invariant length == 0 ==>
                   kappa > 0 && divisor as int * one as int <= integrals as int * one as int + fractionals as int
    {
      CountIntegral(w, buffer[..], length, kappa, one as int, integrals as int, fractionals as int, divisor as int);
      if length == 0 { LeadingIsPositive(integrals as int, divisor as int, one as int, fractionals as int); }
      StepIsDivisor(kappa - 1, one as int);
      PlacesStep(kappa, one as int);
      ghost var before, had := buffer[..], integrals as int;
      var digit := integrals / divisor;
      buffer[length] := ('0' as int + digit as int) as char;
      CountDigit(w, before, buffer[..], length, divisor as int * one as int, 1, had * one as int + fractionals as int,
                 digit as int);
      length := length + 1;
      remaining := remaining - 1;
      integrals := integrals % divisor;
      kappa := kappa - 1;
      if remaining == 0 {
        CountedFits(w, buffer[..], length, divisor as int * one as int,
                    integrals as int * one as int + fractionals as int);
        PartFits(integrals as int, one as int, fractionals as int, w.f as int);
        CountingRest(w, buffer[..], length, divisor as int * one as int, 1,
                     integrals as int * one as int + fractionals as int);
        c0, kappa0 := DecimalValue(buffer[..length]), kappa;
        IntegralClear(c0, length, divisor as int, one as int, integrals as int * one as int + fractionals as int);
        var left := integrals as uint64 * one + fractionals;
        rest := left as int;
        r, kappa := FinishCounted(w, buffer, length, left, divisor as uint64 * one, 1, kappa, c0);
        return;
      }
      divisor := divisor / 10;
    }
    CountedNothingIntegral(w, buffer[..], length, one as int, integrals as int, fractionals as int);
    r, length, kappa, c0, kappa0, rest := CountedFraction(w, requestedDigits, one, fractionals, length, buffer);
  }
}
