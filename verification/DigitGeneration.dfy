/** Fast digit generation in 64-bit arithmetic, over an interval whose ends are known up to one unit. */
module DigitGeneration {
  import opened Arith
  import opened Decimals
  import opened DiyFps
  import opened Ieee
  import opened PowerGuess

  /** What distinguishes the final digits, all distances being taken downwards from the top of the unsafe interval,
      scaled by unit: `dist` is that of the number, `rest` that of the digits, and `step` that between neighbours. */
  datatype Weed = Weed(dist: int, unsafeInterval: int, step: int, unit: int)

  /** One less in the last digit is still in the interval and not farther from the upper estimate of the number. */
  predicate ShouldLower(w: Weed, rest: int) {
    rest < w.dist - w.unit && rest + w.step <= w.unsafeInterval && 2 * (w.dist - w.unit) >= 2 * rest + w.step
  }

  /** One less would be closer to the lower estimate of the number. */
  predicate Contested(w: Weed, rest: int) {
    rest < w.dist + w.unit && rest + w.step <= w.unsafeInterval && 2 * (w.dist + w.unit) > 2 * rest + w.step
  }

  predicate InSafeInterval(w: Weed, rest: int) {
    2 * w.unit <= rest <= w.unsafeInterval - 4 * w.unit
  }

  /** The digits have been lowered n times, each time for a reason and no more often. */
  predicate Lowered(w: Weed, rest: int, n: nat) {
    !ShouldLower(w, rest + n * w.step) && (n > 0 ==> ShouldLower(w, rest + (n - 1) * w.step))
  }

  function DigitOf(c: char): int {
    c as int - '0' as int
  }

  lemma {:induction false} LoweredSoFar(w: Weed, rest: int, n: int, digit: int)
    requires w.step > 0 && rest + digit * w.step >= w.unsafeInterval && n <= digit
    requires rest + n * w.step + w.step <= w.unsafeInterval
    ensures n < digit
  {
    if n >= digit { MulMono(digit, n, w.step); }
  }

  /** Lowers the last digit towards the number and tells whether the result is certain. No 64-bit operation wraps and
      the last digit does not fall below '0'. */
  method RoundWeed(buffer: array<char>, length: nat, distanceTooHighW: uint64, unsafeInterval: uint64, restIn: uint64,
                   tenKappa: uint64, unit: uint64) returns (r: bool, ghost n: nat)
    requires 0 < length <= buffer.Length && '0' <= buffer[length - 1] <= '9'
    requires 0 < unit <= distanceTooHighW && distanceTooHighW as int + unit as int <= unsafeInterval as int
    requires 4 * unit as int <= unsafeInterval as int && restIn <= unsafeInterval && tenKappa > 0
    requires restIn as int + DigitOf(buffer[length - 1]) * tenKappa as int >= unsafeInterval as int
    modifies buffer
    ensures var w := Weed(distanceTooHighW as int, unsafeInterval as int, tenKappa as int, unit as int);
            && Lowered(w, restIn as int, n) && 0 <= restIn as int + n * tenKappa as int <= unsafeInterval as int
            && (r <==>
                  InSafeInterval(w, restIn as int + n * tenKappa as int) &&
                  !Contested(w, restIn as int + n * tenKappa as int))
    ensures n <= DigitOf(old(buffer[length - 1]))
    ensures buffer[..] == old(buffer[..])[length - 1 := ('0' as int + DigitOf(old(buffer[length - 1])) - n) as char]
  {
    var smallDistance, bigDistance := distanceTooHighW - unit, distanceTooHighW + unit;
    var rest := restIn;
    ghost var w := Weed(distanceTooHighW as int, unsafeInterval as int, tenKappa as int, unit as int);
    ghost var digit := DigitOf(buffer[length - 1]);
    n := 0;
    assert buffer[..] == old(buffer[..])[length - 1 := ('0' as int + digit) as char];
    while rest < smallDistance && unsafeInterval - rest >= tenKappa
          && (rest + tenKappa < smallDistance || smallDistance - rest >= rest + tenKappa - smallDistance)
      invariant rest as int == restIn as int + n * tenKappa as int && rest <= unsafeInterval && n <= digit
      invariant n > 0 ==> ShouldLower(w, restIn as int + (n - 1) * tenKappa as int)
      invariant buffer[..] == old(buffer[..])[length - 1 := ('0' as int + digit - n) as char]
      decreases unsafeInterval - rest
    {
      LoweredSoFar(w, restIn as int, n, digit);
      TimesSuccessor(n, tenKappa as int);
      buffer[length - 1] := (buffer[length - 1] as int - 1) as char;
      rest := rest + tenKappa;
      n := n + 1;
    }
    if rest < bigDistance && unsafeInterval - rest >= tenKappa
       && (rest + tenKappa < bigDistance || bigDistance - rest > rest + tenKappa - bigDistance) {
      return false, n;
    }
    r := 2 * unit <= rest && rest <= unsafeInterval - 4 * unit;
  }

  // ---- What the generated digits mean, in integers ----

  /** The weight of the last digit and the common factor when the digits are to be multiplied by 10^kappa. */
  function StepOf(kappa: int, one: nat): nat {
    if kappa >= 0 then Pow(10, kappa) * one else one
  }

  function UnitOf(kappa: int): nat {
    if kappa >= 0 then 1 else Pow(10, -kappa)
  }

  /** A shorter decimal is not in the unsafe interval. */
  predicate Outside(l: int, h: int, o: int, step: int, unit: int) {
    o % 10 == 0 ==> o * step <= (l - 1) * unit || o * step > (h + 1) * unit
  }

  /** c is in the unsafe interval, no shorter decimal is, and the next greater one is not closer to any number within a
      unit of w. */
  ghost predicate Candidate(l: int, w: int, h: int, c: int, step: int, unit: int) {
    && (l - 1) * unit <= c * step <= (h + 1) * unit
    && (forall o: int :: Outside(l, h, o, step, unit))
    && ((2 * c + 1) * step >= 2 * ((w + 1) * unit) || (c + 1) * step > (h + 1) * unit)
  }

  /** c is in the safe interval, and the next smaller decimal is not closer to any number within a unit of w. */
  ghost predicate Sure(l: int, w: int, h: int, c: int, step: int, unit: int) {
    && (l + 3) * unit <= c * step <= (h - 1) * unit
    && ((2 * c - 1) * step <= 2 * ((w - 1) * unit) || (c - 1) * step < (l - 1) * unit)
  }

  /** The digits so far, c, are those of the top of the interval. */
  ghost predicate Generated(top: int, c: int, step: int, unit: int, rest: int) {
    top * unit == c * step + rest && 0 <= rest < step
  }

  lemma {:induction false} Multiples(l: int, h: int, c: int, step: int, unit: int, rest: int, o: int)
    requires (h + 1) * unit == c * (10 * step) + rest && rest < 10 * step && rest >= (h + 1) * unit - (l - 1) * unit &&
             step > 0
    ensures Outside(l, h, o, step, unit)
  {
    if o % 10 == 0 {
      var q := o / 10;
      TenAcross(q, step);
      if q <= c { MulMono(q, c, 10 * step); } else {
        MulMono(c + 1, q, 10 * step);
        TimesSuccessor(c, 10 * step);
      }
    }
  }

  /** The products in the definitions, from c * step. */
  lemma {:induction false} Products(l: int, w: int, h: int, c: int, step: int, unit: int)
    ensures (2 * c + 1) * step == 2 * (c * step) + step && (2 * c - 1) * step == 2 * (c * step) - step
    ensures (c + 1) * step == c * step + step && (c - 1) * step == c * step - step
    ensures (w + 1) * unit == w * unit + unit && (w - 1) * unit == w * unit - unit
    ensures (l - 1) * unit == l * unit - unit && (l + 3) * unit == l * unit + 3 * unit
    ensures (h + 1) * unit == h * unit + unit && (h - 1) * unit == h * unit - unit
  {
  }

  lemma {:induction false} Differences(l: int, w: int, h: int, unit: int)
    ensures (h + 1 - w) * unit == h * unit + unit - w * unit && (h - l + 2) * unit == h * unit - l * unit + 2 * unit
  {
  }

  /** What rounding and weeding yield when the digits are lowered by n. */
  lemma {:induction false} Weeded(l: int, w: int, h: int, c1: int, digit: int, n: nat, step: int, unit: int, rest: int)
    requires step > 0 && unit > 0 && 0 <= digit <= 9 && n <= digit
    requires Generated(h + 1, c1 * 10 + digit, step, unit, rest) && rest + digit * step >= (h - l + 2) * unit
    requires var v := Weed((h + 1 - w) * unit, (h - l + 2) * unit, step, unit);
             Lowered(v, rest, n) && rest + n * step <= v.unsafeInterval
    ensures var v := Weed((h + 1 - w) * unit, (h - l + 2) * unit, step, unit);
            var c := c1 * 10 + digit - n;
            && Candidate(l, w, h, c, step, unit)
            && (InSafeInterval(v, rest + n * step) && !Contested(v, rest + n * step) <==> Sure(l, w, h, c, step, unit))
  {
    hide Candidate, Sure;
    var c := c1 * 10 + digit - n;
    TimesDifference(c1 * 10 + digit, n, step);
    Products(l, w, h, c, step, unit);
    Differences(l, w, h, unit);
    TimesSuccessor(n - 1, step);
    UpperDigits(c1, digit, step);
    forall o: int
      ensures Outside(l, h, o, step, unit)
    {
      Multiples(l, h, c1, step, unit, rest + digit * step, o);
    }
    WeededCore(l, w, h, c, step, unit, rest, n);
  }

  lemma {:induction false} UpperDigits(c1: int, digit: int, step: int)
    requires 0 <= digit <= 9 && step > 0
    ensures (c1 * 10 + digit) * step == c1 * (10 * step) + digit * step
    ensures digit * step <= 9 * step
  {
    MulMono(digit, 9, step);
  }

  lemma {:induction false} WeededCore(l: int, w: int, h: int, c: int, step: int, unit: int, rest: int, n: nat)
    requires step > 0 && unit > 0 && (h + 1) * unit == c * step + (rest + n * step)
    requires 0 <= rest < step && (n > 0 ==> n * step == (n - 1) * step + step)
    requires var v := Weed((h + 1 - w) * unit, (h - l + 2) * unit, step, unit);
             Lowered(v, rest, n) && rest + n * step <= v.unsafeInterval
    requires forall o: int :: Outside(l, h, o, step, unit)
    ensures var v := Weed((h + 1 - w) * unit, (h - l + 2) * unit, step, unit);
            && Candidate(l, w, h, c, step, unit)
            && (InSafeInterval(v, rest + n * step) && !Contested(v, rest + n * step) <==> Sure(l, w, h, c, step, unit))
  {
    hide Outside;
    Products(l, w, h, c, step, unit);
    Differences(l, w, h, unit);
    WeedSigns(l * unit, w * unit, h * unit, c * step, step, unit, rest, n * step, (n - 1) * step, n);
  }

  /** The same with all products named. */
  lemma {:induction false} WeedSigns(lu: int, wu: int, hu: int, cs: int, step: int, unit: int, rest: int, ns: int,
                                     ms: int, n: nat)
    requires step > 0 && unit > 0 && hu + unit == cs + (rest + ns) && 0 <= rest < step &&
             (n > 0 ==> ns == ms + step) && (n == 0 ==> ns == 0) && ns >= 0
    requires rest + ns <= hu - lu + 2 * unit
    requires n > 0 ==> 2 * (hu - wu) >= 2 * (rest + ms) + step
    ensures lu - unit <= cs <= hu + unit
    ensures 2 * cs + step >= 2 * (wu + unit) || cs + step > hu + unit
    ensures var d := rest + ns;
            && (2 * unit <= d <= hu - lu + 2 * unit - 4 * unit <==> lu + 3 * unit <= cs <= hu - unit)
            && (!(d < hu + unit - wu + unit && d + step <= hu - lu + 2 * unit &&
                  2 * (hu + unit - wu + unit) > 2 * d + step)
                <==> 2 * cs - step <= 2 * (wu - unit) || cs - step < lu - unit)
  {
  }

  // ---- Generating the digits ----

  /** The weight of one more digit than the first, and how far the generation has come from it. */
  ghost predicate Progress(first: int, length: nat, step: int, unit: int) {
    first * unit == Pow(10, length) * step
  }

  lemma {:induction false} NextDigit(top: int, c: int, step: int, unit: int, rest: int, digit: int, first: int,
                                     length: nat)
    requires step > 0 && digit == rest / step && Generated(top, c, 10 * step, unit, rest) &&
             Progress(first, length, 10 * step, unit)
    ensures 0 <= digit <= 9 && Generated(top, c * 10 + digit, step, unit, rest % step) &&
            rest % step + digit * step == rest
    ensures Progress(first, length + 1, step, unit)
  {
    UpperDigits2(c, digit, step);
    QuotientOf(rest, step);
    MoreTens(length, step);
  }

  lemma {:induction false} UpperDigits2(c: int, digit: int, step: int)
    ensures (c * 10 + digit) * step == c * (10 * step) + digit * step
  {
  }

  lemma {:induction false} QuotientOf(rest: int, step: int)
    requires step > 0 && 0 <= rest < 10 * step
    ensures 0 <= rest / step <= 9 && rest / step * step + rest % step == rest && 0 <= rest % step < step
  {
    var q := rest / step;
    assert q * step + rest % step == rest;
    if q >= 10 { MulMono(10, q, step); }
    if q < 0 { MulMono(q, -1, step); }
  }

  lemma {:induction false} MoreTens(length: nat, step: int)
    ensures Pow(10, length) * (10 * step) == Pow(10, length + 1) * step
  {
  }

  /** Multiplying by ten goes on to the next digit after the decimal point. */
  lemma {:induction false} TenFold(top: int, c: int, step: int, unit: int, rest: int, first: int, length: nat)
    requires Generated(top, c, step, unit, rest) && Progress(first, length, step, unit)
    ensures Generated(top, c, 10 * step, 10 * unit, 10 * rest) && Progress(first, length, 10 * step, 10 * unit)
  {
    TenOut(top, unit);
    TenOut(c, step);
    TenOut(first, unit);
    TenOut(Pow(10, length), step);
  }

  /** The buffer has room for one more digit as long as the rest is not below the unsafe interval. */
  lemma {:induction false} Room(first: int, length: nat, capacity: nat, step: int, unit: int, rest: int, wide: int)
    requires Progress(first, length, step, unit) && rest < step && unit > 0 && wide * unit <= rest && wide > 0
    requires first <= Pow(10, capacity) * wide
    ensures length < capacity
  {
    hide Pow;
    if length >= capacity {
      PowMono(10, capacity, length);
      MulMono(Pow(10, capacity), Pow(10, length), wide * unit);
      MulStrict(wide * unit, step, Pow(10, length));
      MulMono(first, Pow(10, capacity) * wide, unit);
      Regroup(Pow(10, capacity), wide, unit);
      Commuted(Pow(10, length), wide * unit, step);
    }
  }

  lemma {:induction false} Commuted(p: int, a: int, b: int)
    ensures a * p == p * a && b * p == p * b
  {
  }

  lemma {:induction false} ShiftedOne(s: nat)
    requires 32 <= s <= 60
    ensures 0x1_0000_0000 <= Pow(2, s) <= 0x1000_0000_0000_0000 && Pow(2, s) * Pow(2, 64 - s) == TWO64
    ensures 0 < Pow(2, 64 - s) <= 0x1_0000_0000
  {
    hide Pow;
    TwosUpTo(32);
    PowAdd(2, 32, s - 32);
    PowAdd(2, s, 64 - s);
    PowAdd(2, 32, 32);
    PowMono(2, 64 - s, 32);
    PowMono(2, 32, s);
    PowMono(2, s, 60);
    PowAdd(2, 30, 30);
    TwosUpTo(30);
  }

  /** The integral part of the top of the interval fits in 32 bits, and in as many as are passed on. */
  lemma {:induction false} IntegralPart(top: int, s: nat)
    requires 32 <= s <= 60 && 0 <= top < TWO64
    ensures 0 <= top / Pow(2, s) < Pow(2, 64 - s) && Pow(2, 64 - s) < Pow(2, 64 - s + 1)
    ensures top / Pow(2, s) * Pow(2, s) + top % Pow(2, s) == top && 0 <= top % Pow(2, s) < Pow(2, s)
  {
    hide Pow;
    ShiftedOne(s);
    PowStrict(2, 64 - s, 64 - s + 1);
    var q, one := top / Pow(2, s), Pow(2, s);
    assert q * one + top % one == top;
    if q >= Pow(2, 64 - s) { MulMono(Pow(2, 64 - s), q, one); }
    if q < 0 { MulMono(q, -1, one); }
  }

  /** Dividing by the divisor and by the shifted divisor come to the same. */
  lemma {:induction false} ShiftedQuotient(integrals: int, divisor: int, one: int, fractionals: int)
    requires divisor > 0 && one > 0 && 0 <= fractionals < one && integrals >= 0
    ensures var rest, step := integrals * one + fractionals, divisor * one;
            step > 0 && rest / step == integrals / divisor && rest % step == integrals % divisor * one + fractionals
  {
    var q, r := integrals / divisor, integrals % divisor;
    assert integrals == q * divisor + r;
    MulStrict(0, divisor, one);
    MulMono(r, divisor - 1, one);
    MulMono(0, r, one);
    TimesSplit(q, divisor, r, one);
    TimesSuccessor(divisor - 1, one);
    DivModUnique(integrals * one + fractionals, divisor * one, q, r * one + fractionals);
  }

  lemma {:induction false} AppendDigit(before: seq<char>, after: seq<char>, i: nat, digit: int)
    requires i < |before| && 0 <= digit <= 9 && AllDigits(before[..i]) &&
             after == before[i := ('0' as int + digit) as char]
    ensures AllDigits(after[..i + 1]) && DecimalValue(after[..i + 1]) == DecimalValue(before[..i]) * 10 + digit
  {
    hide DecimalValue;
    assert after[..i + 1][..i] == before[..i];
    DecimalSnoc(after[..i + 1], i);
    assert after[..i + 1][..i + 1] == after[..i + 1];
  }

  /** Lowering the last digit lowers the number. */
  lemma {:induction false} LowerDigit(before: seq<char>, after: seq<char>, i: nat, n: nat)
    requires i < |before| && AllDigits(before[..i + 1]) && n <= DigitOf(before[i]) &&
             after == before[i := ('0' as int + DigitOf(before[i]) - n) as char]
    ensures AllDigits(after[..i + 1]) && DecimalValue(after[..i + 1]) == DecimalValue(before[..i + 1]) - n
    ensures DecimalValue(before[..i + 1]) == DecimalValue(before[..i + 1][..i]) * 10 + DigitOf(before[i])
  {
    hide DecimalValue;
    assert before[..i + 1][..i] == before[..i];
    DecimalSnoc(before[..i + 1], i);
    assert before[..i + 1][..i + 1] == before[..i + 1];
    AppendDigit(before, after, i, DigitOf(before[i]) - n);
  }

  /** The outcome: the digits and the exponent kappa are the candidate for the interval, and r tells whether it is
      certain. */
  ghost predicate Outcome(low: DiyFp, w: DiyFp, high: DiyFp, r: bool, c: int, kappa: int)
    requires w.e <= 0
  {
    var one := Pow(2, -w.e);
    && Candidate(low.f as int, w.f as int, high.f as int, c, StepOf(kappa, one), UnitOf(kappa))
    && (r <==> Sure(low.f as int, w.f as int, high.f as int, c, StepOf(kappa, one), UnitOf(kappa)))
  }

  /** The place of the first digit. */
  ghost function FirstPlace(high: DiyFp): nat
    requires -60 <= high.e <= -32 && high.f as int + 1 < TWO64
  {
    var one := Pow(2, -high.e);
    Pow(10, Digits((high.f as int + 1) / one, 64 + high.e)) * one
  }

  predicate Close(low: DiyFp, w: DiyFp, high: DiyFp) {
    && low.e == w.e == high.e && -60 <= w.e <= -32
    && 0 < low.f && low.f as int + 1 <= high.f as int - 1 && high.f as int + 1 < TWO64 && low.f <= w.f <= high.f
  }

  /** The buffer has room for every digit that may be needed. */
  ghost predicate HasRoom(low: DiyFp, high: DiyFp, capacity: nat)
    requires -60 <= high.e <= -32 && high.f as int + 1 < TWO64
  {
    FirstPlace(high) <= Pow(10, capacity) * (high.f as int - low.f as int + 2)
  }

  /** The state at a decimal place: nothing but the rest is left, and it is not yet below the unsafe interval. */
  ghost predicate Running(low: DiyFp, high: DiyFp, buffer: seq<char>, length: nat, step: int, unit: int, rest: int)
    requires -60 <= high.e <= -32 && high.f as int + 1 < TWO64
  {
    && length <= |buffer| && AllDigits(buffer[..length])
    && Generated(high.f as int + 1, DecimalValue(buffer[..length]), step, unit, rest)
    && Progress(FirstPlace(high), length, step, unit) && (high.f as int - low.f as int + 2) * unit <= rest
  }

  lemma {:induction false} Distances(l: int, w: int, h: int, unit: int)
    requires l <= w <= h && l + 2 <= h && unit > 0
    ensures unit <= (h + 1 - w) * unit && (h + 1 - w) * unit + unit <= (h - l + 2) * unit &&
            4 * unit <= (h - l + 2) * unit
  {
    MulMono(1, h + 1 - w, unit);
    MulMono(h + 2 - w, h - l + 2, unit);
    MulMono(4, h - l + 2, unit);
    TimesSuccessor(h + 1 - w, unit);
  }

  lemma {:induction false} PlacesStep(kappa: nat, one: nat)
    requires kappa > 0
    ensures Pow(10, kappa) * one == 10 * (SmallPower(kappa) * one) &&
            SmallPower(kappa) * one == Pow(10, kappa - 1) * one
    ensures SmallPower(kappa) / 10 == SmallPower(kappa - 1)
  {
    Regroup(10, Pow(10, kappa - 1), one);
  }

  /** What one more digit leaves: the facts the weeding needs. */
  ghost predicate Stopping(low: DiyFp, high: DiyFp, after: seq<char>, length: nat, step: int, unit: int, rest: int,
                           c1: nat, digit: int)
    requires -60 <= high.e <= -32 && high.f as int + 1 < TWO64
  {
    && 0 < length <= |after| && AllDigits(after[..length]) && digit == DigitOf(after[length - 1]) && 0 <= digit <= 9
    && DecimalValue(after[..length]) == c1 * 10 + digit
    && Generated(high.f as int + 1, DecimalValue(after[..length]), step, unit, rest)
    && Progress(FirstPlace(high), length, step, unit)
    && rest + digit * step >= (high.f as int - low.f as int + 2) * unit
  }

  lemma {:induction false} GoingOn(low: DiyFp, high: DiyFp, after: seq<char>, length: nat, step: int, unit: int,
                                   rest: int, c1: nat, digit: int)
    requires -60 <= high.e <= -32 && high.f as int + 1 < TWO64
    requires Stopping(low, high, after, length, step, unit, rest, c1, digit) &&
             (high.f as int - low.f as int + 2) * unit <= rest
    ensures Running(low, high, after, length, step, unit, rest)
  {
    hide Pow, DecimalValue, FirstPlace;
  }

  lemma {:induction false} IntegralRange(low: DiyFp, high: DiyFp, before: seq<char>, length: nat, kappa: nat, one: nat,
                                         integrals: int, fractionals: int, divisor: int)
    requires -60 <= high.e <= -32 && high.f as int + 1 < TWO64 && kappa > 0 && one > 0 &&
             divisor == SmallPower(kappa) && 0 <= fractionals < one && integrals >= 0
    requires Running(low, high, before, length, Pow(10, kappa) * one, 1, integrals * one + fractionals)
    ensures divisor > 0 && 0 <= integrals / divisor <= 9
  {
    hide Pow, DecimalValue, FirstPlace;
    PlacesStep(kappa, one);
    SmallPositive(kappa);
    ShiftedQuotient(integrals, divisor, one, fractionals);
    QuotientOf(integrals * one + fractionals, divisor * one);
  }

  lemma {:induction false} IntegralDigit(low: DiyFp, high: DiyFp, before: seq<char>, after: seq<char>, length: nat,
                                         kappa: nat, one: nat,
                                         integrals: int, fractionals: int, divisor: int, digit: int)
    requires -60 <= high.e <= -32 && high.f as int + 1 < TWO64 && kappa > 0 && one > 0 &&
             divisor == SmallPower(kappa) > 0 && 0 <= fractionals < one && integrals >= 0
    requires Running(low, high, before, length, Pow(10, kappa) * one, 1, integrals * one + fractionals) &&
             length < |before|
    requires digit == integrals / divisor && 0 <= digit <= 9 && after == before[length := ('0' as int + digit) as char]
    ensures Stopping(low, high, after, length + 1, divisor * one, 1, integrals % divisor * one + fractionals,
                     DecimalValue(before[..length]), digit)
  {
    hide Pow, DecimalValue, FirstPlace;
    PlacesStep(kappa, one);
    ShiftedQuotient(integrals, divisor, one, fractionals);
    var rest, step := integrals * one + fractionals, divisor * one;
    NextDigit(high.f as int + 1, DecimalValue(before[..length]), step, 1, rest, digit, FirstPlace(high), length);
    AppendDigit(before, after, length, digit);
  }

  lemma {:induction false} SmallPositive(kappa: nat)
    requires kappa > 0
    ensures SmallPower(kappa) > 0
  {
  }

  lemma {:induction false} FractionRange(low: DiyFp, high: DiyFp, before: seq<char>, length: nat, one: nat, unit: int,
                                         fractionals: int)
    requires -60 <= high.e <= -32 && high.f as int + 1 < TWO64 && one > 0
    requires Running(low, high, before, length, one, unit, fractionals)
    ensures 0 <= fractionals * 10 / one <= 9
  {
    hide Pow, DecimalValue, FirstPlace;
    QuotientOf(fractionals * 10, one);
  }

  lemma {:induction false} FractionDigit(low: DiyFp, high: DiyFp, before: seq<char>, after: seq<char>, length: nat,
                                         one: nat, unit: int, fractionals: int, digit: int)
    requires -60 <= high.e <= -32 && high.f as int + 1 < TWO64 && one > 0
    requires Running(low, high, before, length, one, unit, fractionals) && length < |before|
    requires digit == fractionals * 10 / one && 0 <= digit <= 9 &&
             after == before[length := ('0' as int + digit) as char]
    ensures Stopping(low, high, after, length + 1, one, unit * 10, fractionals * 10 % one,
                     DecimalValue(before[..length]), digit)
  {
    hide Pow, DecimalValue, FirstPlace;
    TenFold(high.f as int + 1, DecimalValue(before[..length]), one, unit, fractionals, FirstPlace(high), length);
    NextDigit(high.f as int + 1, DecimalValue(before[..length]), one, 10 * unit, 10 * fractionals, digit,
              FirstPlace(high), length);
    AppendDigit(before, after, length, digit);
    TenOut(high.f as int - low.f as int + 2, unit);
  }

  /** At the start nothing has been generated and the whole number is left. */
  lemma {:induction false} StartRunning(low: DiyFp, w: DiyFp, high: DiyFp, buffer: seq<char>, one: int, kappa: nat,
                                        power: int)
    requires Close(low, w, high) && one == Pow(2, -w.e) && kappa == Digits((high.f as int + 1) / one, 64 + w.e)
    requires power == SmallPower(kappa) && ((high.f as int + 1) / one < 10 * power || (high.f as int + 1) / one == 0)
    ensures var top := high.f as int + 1;
            Running(low, high, buffer, 0, Pow(10, kappa) * one, 1, top / one * one + top % one)
  {
    hide Pow, SmallPower;
    DecimalEmpty(buffer[..0]);
    var top := high.f as int + 1;
    IntegralPart(top, -w.e);
    TensStart(kappa);
    BelowFirst(top / one, Pow(10, kappa), one, top % one);
  }

  lemma {:induction false} TensStart(kappa: nat)
    ensures Pow(10, kappa) >= 1 && Pow(10, 0) == 1 && (kappa > 0 ==> Pow(10, kappa) == 10 * SmallPower(kappa)) &&
            SmallPower(0) == 0
  {
  }

  lemma {:induction false} BelowFirst(q: int, p: int, one: int, r: int)
    requires 0 <= q < p && 0 <= r < one
    ensures q * one + r < p * one
  {
    MulMono(q, p - 1, one);
    TimesSuccessor(p - 1, one);
  }

  lemma {:induction false} AnotherDigit(low: DiyFp, high: DiyFp, buffer: seq<char>, length: nat, step: int, unit: int,
                                        rest: int, capacity: nat)
    requires -60 <= high.e <= -32 && high.f as int + 1 < TWO64 && low.f as int + 1 <= high.f as int - 1 && unit > 0
    requires Running(low, high, buffer, length, step, unit, rest) && HasRoom(low, high, capacity)
    ensures length < capacity
  {
    hide Pow, DecimalValue, FirstPlace, Progress;
    Room(FirstPlace(high), length, capacity, step, unit, rest, high.f as int - low.f as int + 2);
  }

  lemma {:induction false} RestFits(top: int, c: int, step: int, rest: int)
    requires Generated(top, c, step, 1, rest) && c >= 0
    ensures rest <= top && (rest < top ==> step <= top)
  {
    MulMono(0, c, step);
    if c > 0 { MulMono(1, c, step); }
  }

  lemma {:induction false} StepIsDivisor(kappa: nat, one: int)
    requires one > 0
    ensures SmallPower(kappa + 1) * one == StepOf(kappa, one) && UnitOf(kappa) == 1
  {
  }

  /** The first digit stays a digit other than zero. */
  lemma {:induction false} FirstDigitStays(low: DiyFp, w: DiyFp, high: DiyFp, c: int, c1: nat, digit: int, last: int,
                                           length: nat, kappa: int, step: int, unit: int, rest: int)
    requires Close(low, w, high) && 0 < length && 0 <= digit <= 9 && step > 0 && c == c1 * 10 + digit && c1 * 10 <= last
    requires Generated(high.f as int + 1, c, step, unit, rest) && Progress(FirstPlace(high), length, step, unit)
    requires step == StepOf(kappa, Pow(2, -w.e)) && unit == UnitOf(kappa) > 0
    requires Outcome(low, w, high, true, last, kappa) && FirstPlace(high) <= 10 * (high.f as int + 1)
    ensures Pow(10, length - 1) <= last
  {
    hide Pow, FirstPlace, StepOf, UnitOf, Candidate;
    var top := high.f as int + 1;
    MulMono(FirstPlace(high), 10 * top, unit);
    Regroup(10, top, unit);
    TimesSuccessor(c, step);
    TenOut(c + 1, step);
    PowTens(length);
    ManyDigits(Pow(10, length - 1), c, step);
    PositiveLast(last, step, low.f as int, unit);
    PowLeast(length, c1, digit);
  }

  lemma {:induction false} PowTens(length: nat)
    requires length > 0
    ensures Pow(10, length) == 10 * Pow(10, length - 1)
  {
  }

  lemma {:induction false} ManyDigits(p: int, c: int, step: int)
    requires (10 * p) * step < (c + 1) * (10 * step) && step > 0
    ensures p <= c
  {
    if p >= c + 1 { MulMono(c + 1, p, 10 * step); TenAcross(p, step); }
  }

  lemma {:induction false} PositiveLast(last: int, step: int, l: int, unit: int)
    requires (l + 3) * unit <= last * step && l > 0 && unit > 0 && step > 0
    ensures last > 0
  {
    MulStrict(0, l + 3, unit);
    if last <= 0 { MulMono(last, 0, step); }
  }

  /** A number of at least `length` digits keeps as many without its last one. */
  lemma {:induction false} PowLeast(length: nat, c1: nat, digit: int)
    requires length > 0 && Pow(10, length - 1) <= c1 * 10 + digit && 0 <= digit <= 9
    ensures length > 1 ==> Pow(10, length - 1) <= c1 * 10
    ensures length == 1 ==> Pow(10, length - 1) == 1
  {
  }

  /** Weeds the digits after one more has been generated. */
  method Finish(low: DiyFp, w: DiyFp, high: DiyFp, buffer: array<char>, length: nat, distance: uint64,
                unsafeInterval: uint64,
                rest: uint64, tenKappa: uint64, unit: uint64, ghost kappa: int, ghost c1: nat, ghost digit: int)
    returns (r: bool)
    requires Close(low, w, high) && 0 < length <= buffer.Length && unit > 0 && tenKappa > 0
    requires tenKappa as int == StepOf(kappa, Pow(2, -w.e)) && unit as int == UnitOf(kappa)
    requires distance as int == (high.f as int + 1 - w.f as int) * unit as int
    requires unsafeInterval as int == (high.f as int - low.f as int + 2) * unit as int && rest < unsafeInterval
    requires Stopping(low, high, buffer[..], length, tenKappa as int, unit as int, rest as int, c1, digit)
    modifies buffer
    ensures AllDigits(buffer[..length]) && Outcome(low, w, high, r, DecimalValue(buffer[..length]), kappa)
    ensures r && FirstPlace(high) <= 10 * (high.f as int + 1) ==> Pow(10, length - 1) <= DecimalValue(buffer[..length])
  {
    hide Pow, DecimalValue, Candidate, Sure, InSafeInterval, Contested, Lowered, Generated, StepOf, UnitOf, Progress,
         FirstPlace;
    ghost var l, v, h := low.f as int, w.f as int, high.f as int;
    ghost var c := DecimalValue(buffer[..length]);
    Distances(l, v, h, unit as int);
    ghost var n;
    r, n := RoundWeed(buffer, length, distance, unsafeInterval, rest, tenKappa, unit);
    LowerDigit(old(buffer[..]), buffer[..], length - 1, n);
    Weeded(l, v, h, c1, digit, n, tenKappa as int, unit as int, rest as int);
    if r && FirstPlace(high) <= 10 * (high.f as int + 1) {
      FirstDigitStays(low, w, high, c, c1, digit, DecimalValue(buffer[..length]), length, kappa, tenKappa as int,
                      unit as int, rest as int);
    }
  }

  lemma {:induction false} FractionScale(kappa: int, one: nat)
    requires kappa <= 0
    ensures StepOf(kappa, one) == one && UnitOf(kappa) == Pow(10, 0 - kappa) && UnitOf(kappa - 1) == 10 * UnitOf(kappa)
  {
  }

  lemma {:induction false} UnitFits(l: int, h: int, unit: int, fractionals: int, one: int)
    requires (h - l + 2) * unit <= fractionals < one <= 0x1000_0000_0000_0000 && l + 2 <= h && unit > 0
    ensures unit * 10 < TWO64 && 0 <= (h - l + 2) * unit * 10 < TWO64 && fractionals * 10 < TWO64
    ensures (h - l + 2) * (unit * 10) == (h - l + 2) * unit * 10
  {
    MulMono(4, h - l + 2, unit);
  }

  lemma {:induction false} DistanceFits(l: int, w: int, h: int, unit: int, wide: int)
    requires l <= w <= h && l + 2 <= h && unit > 0 && wide == (h - l + 2) * unit < TWO64
    ensures 0 <= (h + 1 - w) * unit < TWO64
  {
    Distances(l, w, h, unit);
  }

  /** The digits after the decimal point, each by multiplying what is left by ten. */
  method DigitGenFraction(low: DiyFp, w: DiyFp, high: DiyFp, one: uint64, distance: uint64, unsafeIn: uint64,
                          fractionalsIn: uint64,
                          lengthIn: nat, buffer: array<char>, ghost capacity: nat)
    returns (r: bool, length: nat, kappa: int)
    requires Close(low, w, high) && HasRoom(low, high, capacity) && capacity <= buffer.Length &&
             one as int == Pow(2, -w.e) && 0 < one <= 0x1000_0000_0000_0000
    requires distance as int == high.f as int + 1 - w.f as int && unsafeIn as int == high.f as int - low.f as int + 2
    requires Running(low, high, buffer[..], lengthIn, one as int, 1, fractionalsIn as int)
    modifies buffer
    ensures 0 < length <= capacity && AllDigits(buffer[..length])
    ensures Outcome(low, w, high, r, DecimalValue(buffer[..length]), kappa)
    ensures r && FirstPlace(high) <= 10 * (high.f as int + 1) ==> Pow(10, length - 1) <= DecimalValue(buffer[..length])
  {
    hide Pow, DecimalValue, FirstPlace, StepOf, UnitOf, Outcome, HasRoom, Running, Stopping;
    var unit: uint64, unsafeInterval, fractionals := 1, unsafeIn, fractionalsIn;
    length, kappa := lengthIn, 0;
    FractionScale(0, one as int);
    TensStart(0);
    while true
      invariant kappa <= 0 && unit > 0 && unit as int == UnitOf(kappa) &&
                unsafeInterval as int == (high.f as int - low.f as int + 2) * unit as int
      invariant Running(low, high, buffer[..], length, one as int, unit as int, fractionals as int)
      decreases TWO64 - unsafeInterval as int
    {
      AnotherDigit(low, high, buffer[..], length, one as int, unit as int, fractionals as int, capacity);
      FractionRange(low, high, buffer[..], length, one as int, unit as int, fractionals as int);
      StillRunning(low, high, buffer[..], length, one as int, unit as int, fractionals as int);
      UnitFits(low.f as int, high.f as int, unit as int, fractionals as int, one as int);
      FractionScale(kappa, one as int);
      FractionScale(kappa - 1, one as int);
      ghost var before, left := buffer[..], fractionals as int;
      fractionals, unit, unsafeInterval := fractionals * 10, unit * 10, unsafeInterval * 10;
      var digit := fractionals / one;
      buffer[length] := ('0' as int + digit as int) as char;
      FractionDigit(low, high, before, buffer[..], length, one as int, UnitOf(kappa), left, digit as int);
      length := length + 1;
      fractionals := fractionals % one;
      kappa := kappa - 1;
      if fractionals < unsafeInterval {
        DistanceFits(low.f as int, w.f as int, high.f as int, unit as int, unsafeInterval as int);
        r := Finish(low, w, high, buffer, length, distance * unit, unsafeInterval, fractionals, one, unit, kappa,
          DecimalValue(before[..length - 1]), digit as int);
        return;
      }
      GoingOn(low, high, buffer[..], length, one as int, unit as int, fractionals as int,
              DecimalValue(before[..length - 1]), digit as int);
    }
  }

  lemma {:induction false} StillRunning(low: DiyFp, high: DiyFp, buffer: seq<char>, length: nat, step: int, unit: int,
                                        rest: int)
    requires -60 <= high.e <= -32 && high.f as int + 1 < TWO64 && Running(low, high, buffer, length, step, unit, rest)
    ensures (high.f as int - low.f as int + 2) * unit <= rest < step && AllDigits(buffer[..length])
    ensures rest >= 0
  {
    hide Pow, DecimalValue, FirstPlace;
  }

  lemma {:induction false} NothingIntegral(low: DiyFp, high: DiyFp, buffer: seq<char>, length: nat, one: int,
                                           integrals: int, fractionals: int)
    requires -60 <= high.e <= -32 && high.f as int + 1 < TWO64 && integrals >= 0 && one > 0 && fractionals >= 0
    requires Running(low, high, buffer, length, Pow(10, 0) * one, 1, integrals * one + fractionals)
    ensures integrals == 0 && Running(low, high, buffer, length, one, 1, fractionals)
  {
    hide Pow, DecimalValue, FirstPlace;
    TensStart(0);
    if integrals > 0 { MulMono(1, integrals, one); }
  }

  lemma {:induction false} StoppingFits(low: DiyFp, high: DiyFp, buffer: seq<char>, length: nat, step: int, rest: int,
                                        c1: nat, digit: int)
    requires -60 <= high.e <= -32 && high.f as int + 1 < TWO64 &&
             Stopping(low, high, buffer, length, step, 1, rest, c1, digit)
    ensures 0 <= rest <= high.f as int + 1 && (rest < high.f as int + 1 ==> step <= high.f as int + 1)
  {
    hide Pow, DecimalValue, FirstPlace;
    RestFits(high.f as int + 1, DecimalValue(buffer[..length]), step, rest);
  }

  lemma {:induction false} PartFits(integrals: int, one: int, fractionals: int, top: int)
    requires integrals >= 0 && one > 0 && fractionals >= 0 && integrals * one + fractionals <= top
    ensures 0 <= integrals * one <= top
  {
    MulMono(0, integrals, one);
  }

  /** Generates the digits of the upper end until they are inside the unsafe interval, and rounds them towards w; no
      64-bit operation wraps. */
  method DigitGen(low: DiyFp, w: DiyFp, high: DiyFp, buffer: array<char>, ghost capacity: nat)
    returns (r: bool, length: nat, kappa: int)
    requires Close(low, w, high) && HasRoom(low, high, capacity) && capacity <= buffer.Length
    modifies buffer
    ensures 0 < length <= capacity && AllDigits(buffer[..length])
    ensures Outcome(low, w, high, r, DecimalValue(buffer[..length]), kappa)
    ensures r && FirstPlace(high) <= 10 * (high.f as int + 1) ==> Pow(10, length - 1) <= DecimalValue(buffer[..length])
  {
    hide Pow, DecimalValue, SmallPower, Digits, FirstPlace, StepOf, UnitOf, Outcome, HasRoom, Running, Stopping;
    var unit: uint64 := 1;
    var tooLow, tooHigh := low.f - unit, high.f + unit;
    var unsafeInterval := tooHigh - tooLow;
    ShiftedOne(-w.e);
    IntegralPart(tooHigh as int, -w.e);
    var one := Pow(2, -w.e) as uint64;
    var integrals, fractionals := (tooHigh / one) as uint32, tooHigh % one;
    var divisor, exponent := BiggestPowerTen(integrals, (64 + w.e) as nat);
    StartRunning(low, w, high, buffer[..], one as int, exponent, divisor as int);
    kappa := exponent;
    length := 0;
    while kappa > 0
      invariant 0 <= kappa && divisor as int == SmallPower(kappa) && fractionals < one
      invariant Running(low, high, buffer[..], length, Pow(10, kappa) * one as int, 1,
                        integrals as int * one as int + fractionals as int)
    {
      AnotherDigit(low, high, buffer[..], length, Pow(10, kappa) * one as int, 1,
                   integrals as int * one as int + fractionals as int, capacity);
      IntegralRange(low, high, buffer[..], length, kappa, one as int, integrals as int, fractionals as int,
                    divisor as int);
      PlacesStep(kappa, one as int);
      StepIsDivisor(kappa - 1, one as int);
      StillRunning(low, high, buffer[..], length, Pow(10, kappa) * one as int, 1,
                   integrals as int * one as int + fractionals as int);
      ghost var before, had, c1 := buffer[..], integrals as int, DecimalValue(buffer[..length]);
      var digit := integrals / divisor;
      buffer[length] := ('0' as int + digit as int) as char;
      IntegralDigit(low, high, before, buffer[..], length, kappa, one as int, had, fractionals as int, divisor as int,
                    digit as int);
      length := length + 1;
      integrals := integrals % divisor;
      kappa := kappa - 1;
      StoppingFits(low, high, buffer[..], length, divisor as int * one as int,
                   integrals as int * one as int + fractionals as int, c1, digit as int);
      PartFits(integrals as int, one as int, fractionals as int, tooHigh as int);
      var rest := integrals as uint64 * one + fractionals;
      if rest < unsafeInterval {
        r := Finish(low, w, high, buffer, length, tooHigh - w.f, unsafeInterval, rest, divisor as uint64 * one, unit,
                    kappa, c1, digit as int);
        return;
      }
      GoingOn(low, high, buffer[..], length, divisor as int * one as int, 1, rest as int, c1, digit as int);
      divisor := divisor / 10;
    }
    NothingIntegral(low, high, buffer[..], length, one as int, integrals as int, fractionals as int);
    r, length, kappa := DigitGenFraction(low, w, high, one, tooHigh - w.f, unsafeInterval, fractionals, length, buffer,
                                         capacity);
  }

  /** A quarter of the upper half of the word, in units of one. */
  lemma {:induction false} QuarterOf(top: int, one: int, q: int)
    requires one > 0 && q > 0 && one * (q * 4) == TWO64 && TWO63 / 2 <= top
    ensures q <= top / one
  {
    assert q * one == TWO63 / 2;
    var t := top / one;
    assert top == t * one + top % one;
    TimesSuccessor(t, one);
    if t < q { MulMono(t + 1, q, one); }
  }
}
