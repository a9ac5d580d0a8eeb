/** The fast printer for a given number of digits: when it succeeds, the digits are those of the number itself,
    rounded. */
module FastPrecision {
  import opened Arith
  import opened Decimals
  import opened RealPowers
  import opened Ieee
  import opened DiyFps
  import opened DecimalRounding
  import opened DigitGeneration
  import opened GrisuMeaning
  import opened Boundaries
  import opened FastStrtod
  import opened FastCounted
  import opened FixedDigits
  import opened Dtoa
  import opened FastPrinter

  /** y, in units of the last digit, lies around c0 as the rest and its error say. */
  ghost predicate Around(y: real, c0: nat, step: int, unit: int, rest: int) {
    step > 0 && unit > 0 && 0 <= rest < step
    && (c0 * step + rest - unit) as real < Times(y, step as real) < (c0 * step + rest + unit) as real
  }

  lemma {:induction false} HalfUpIs(y: real, c: int)
    requires c as real - 0.5 <= y < c as real + 0.5
    ensures HalfUp(y) == c
  {
  }

  /** The scaled numbers, as reals. */
  lemma {:induction false} AroundReal(y: real, c0: nat, step: int, unit: int, rest: int)
    requires Around(y, c0, step, unit, rest)
    ensures var s := step as real;
            Times(c0 as real, s) + rest as real - unit as real < Times(y, s) < Times(c0 as real,
                s) + rest as real + unit as real
  {
    hide Times;
    TimesCast(c0, step);
  }

  lemma {:induction false} TimesCast(a: int, b: int)
    ensures Times(a as real, b as real) == (a * b) as real
  {
    CastProduct(a, b);
  }

  /** Half a step away in the scaled numbers is half a unit away. */
  lemma {:induction false} HalfStep(y: real, c: real, s: real)
    requires s > 0.0
    ensures Times(y, s) > Times(c, s) - s / 2.0 <==> y > c - 0.5
    ensures Times(y, s) < Times(c, s) + s / 2.0 <==> y < c + 0.5
    ensures Times(y, s) > Times(c, s) - s / 20.0 <==> y > c - 0.05
  {
    hide Times;
    TimesOrder(c - 0.5, y, s);
    TimesOrder(y, c + 0.5, s);
    TimesOrder(c - 0.05, y, s);
    Halved(c, s);
  }

  lemma {:induction false} Halved(c: real, s: real)
    ensures Times(c - 0.5, s) == Times(c, s) - s / 2.0 && Times(c + 0.5, s) == Times(c, s) + s / 2.0
    ensures Times(c - 0.05, s) == Times(c, s) - s / 20.0 && Times(c + 1.0, s) == Times(c, s) + s &&
            Times(c - 1.0, s) == Times(c, s) - s
  {
  }

  lemma {:induction false} RoundsDown(y: real, c0: nat, step: int, unit: int, rest: int)
    requires Around(y, c0, step, unit, rest) && ClearlyDown(rest, step, unit)
    ensures HalfUp(y) == c0
  {
    hide Times, HalfUp;
    AroundReal(y, c0, step, unit, rest);
    HalfStep(y, c0 as real, step as real);
    HalfUpIs(y, c0);
  }

  lemma {:induction false} RoundsUp(y: real, c0: nat, step: int, unit: int, rest: int)
    requires Around(y, c0, step, unit, rest) && ClearlyUp(rest, step, unit)
    ensures HalfUp(y) == c0 + 1
  {
    hide Times, HalfUp;
    AroundReal(y, c0, step, unit, rest);
    Halved(c0 as real, step as real);
    HalfStep(y, (c0 + 1) as real, step as real);
    HalfUpIs(y, c0 + 1);
  }

  /** The number is not far below a power of ten if its digits are a one and zeros. */
  lemma {:induction false} NearDecade(y: real, c0: nat, n: nat, step: int, unit: int, rest: int)
    requires Around(y, c0, step, unit, rest) && n > 0 && c0 == Pow(10, n - 1) && ClearOfDecade(c0, n, step, unit, rest)
    ensures y > c0 as real - 0.05
  {
    hide Pow, Times;
    AroundReal(y, c0, step, unit, rest);
    HalfStep(y, c0 as real, step as real);
  }

  /** v in units of 10^e. */
  ghost function InPlaces(v: real, e: int): real {
    v * Exp(10, -e)
  }

  lemma {:induction false} RoundedByPlaces(v: real, e: int, c: nat)
    requires HalfUp(InPlaces(v, e)) == c
    ensures RoundedAt(v, -e) == Decimal(c, e)
  {
    hide Exp, HalfUp;
  }

  lemma {:induction false} NextPlaces(v: real, e: int)
    ensures InPlaces(v, e) == 10.0 * InPlaces(v, e + 1)
  {
    hide Exp;
    ExpStep(10, -e - 1);
    Exchange(v, Exp(10, -e - 1));
  }

  lemma {:induction false} Exchange(a: real, b: real)
    ensures a * (10.0 * b) == 10.0 * (a * b)
  {
  }

  /** v in its decade, in units of 10^e. */
  lemma {:induction false} DecadeInPlaces(v: real, e: int, m: int)
    ensures v < Exp(10, m) <==> InPlaces(v, e) < Exp(10, m - e)
  {
    hide Exp;
    ExpAdd(10, m, -e);
    ScaleOrder(v, Exp(10, m), Exp(10, -e));
  }

  lemma {:induction false} TenHalfUp(y: real, c: nat)
    requires 10.0 * c as real <= y < 10.0 * c as real + 0.5
    ensures HalfUp(y / 10.0) == c
  {
  }

  lemma {:induction false} TenthHalfUp(y: real, c: nat)
    requires c as real - 0.05 < y < c as real
    ensures HalfUp(10.0 * y) == 10 * c
  {
  }

  /** In whichever decade v turns out to lie, the digits are v rounded to n of them. */
  lemma {:induction false} RoundedInDecade(v: Double, e0: int, n: nat, c0: nat, cc: nat, point: int)
    requires n > 0 && Pow(10, n - 1) <= c0 < Pow(10, n) && c0 <= cc <= c0 + 1 && InDecade(v, point)
    requires HalfUp(InPlaces(v.Value(), e0)) == cc &&
             (c0 == Pow(10, n - 1) ==> InPlaces(v.Value(), e0) > c0 as real - 0.05)
    requires InPlaces(v.Value(), e0) >= c0 as real - 0.5
    ensures Decimal(cc, e0) == RoundedAt(v.Value(), n - point)
  {
    hide Exp, Pow, Double.Value, InPlaces, HalfUp, RoundedAt, Decimal;
    var y, x := InPlaces(v.Value(), e0), v.Value();
    DecadeInPlaces(x, e0, n + e0);
    DecadeInPlaces(x, e0, n - 1 + e0);
    assert n + e0 - e0 == n && n - 1 + e0 - e0 == n - 1;
    ExpNat(10, n);
    ExpNat(10, n - 1);
    PowTenStep(n - 1);
    HalfUpBounds(y, cc);
    if y >= Pow(10, n) as real {
      AboveDecade(v, e0, n, cc, point);
    } else if y < Pow(10, n - 1) as real {
      BelowDecade(v, e0, n, cc, point);
    } else {
      DecadeUnique(v, point, n + e0);
      RoundedByPlaces(x, e0, cc);
    }
  }

  lemma {:induction false} HalfUpBounds(y: real, c: int)
    requires HalfUp(y) == c
    ensures c as real - 0.5 <= y < c as real + 0.5
  {
  }

  lemma {:induction false} AboveDecade(v: Double, e0: int, n: nat, cc: nat, point: int)
    requires n > 0 && InDecade(v, point) && cc <= Pow(10, n) &&
             Pow(10, n) as real <= InPlaces(v.Value(), e0) < cc as real + 0.5
    ensures Decimal(cc, e0) == RoundedAt(v.Value(), n - point)
  {
    hide Exp, Pow, Double.Value, InPlaces, HalfUp, RoundedAt, Decimal;
    var y, x := InPlaces(v.Value(), e0), v.Value();
    assert cc == Pow(10, n);
    DecadeInPlaces(x, e0, n + e0);
    DecadeInPlaces(x, e0, n + 1 + e0);
    assert n + e0 - e0 == n && n + 1 + e0 - e0 == n + 1;
    ExpNat(10, n);
    ExpNat(10, n + 1);
    PowTenStep(n - 1);
    PowTenStep(n);
    DecadeUnique(v, point, n + 1 + e0);
    TenHalfUp(y, Pow(10, n - 1));
    NextPlaces(x, e0);
    RoundedByPlaces(x, e0 + 1, Pow(10, n - 1));
    CoarseDecimal(Pow(10, n - 1), e0, 1);
    PowAdd(10, n - 1, 1);
  }

  lemma {:induction false} BelowDecade(v: Double, e0: int, n: nat, cc: nat, point: int)
    requires n > 0 && InDecade(v, point) && cc == Pow(10, n - 1) &&
             cc as real - 0.05 < InPlaces(v.Value(), e0) < cc as real
    ensures Decimal(cc, e0) == RoundedAt(v.Value(), n - point)
  {
    hide Exp, Pow, Double.Value, InPlaces, HalfUp, RoundedAt, Decimal;
    var y, x := InPlaces(v.Value(), e0), v.Value();
    DecadeInPlaces(x, e0, n - 1 + e0);
    DecadeInPlaces(x, e0, n - 2 + e0);
    assert n - 1 + e0 - e0 == n - 1 && n - 2 + e0 - e0 == n - 2;
    ExpNat(10, n - 1);
    ExpStep(10, n - 2);
    PowAtLeast(n - 1);
    DecadeUnique(v, point, n - 1 + e0);
    TenthHalfUp(y, cc);
    NextPlaces(x, e0 - 1);
    RoundedByPlaces(x, e0 - 1, 10 * cc);
    CoarseDecimal(cc, e0 - 1, 1);
    PowBasics(10);
  }

  lemma {:induction false} PowAtLeast(n: nat)
    ensures Pow(10, n) >= 1
  {
  }

  lemma {:induction false} StepInPlaces(x: real, kappa: int, mk: int, s: nat)
    ensures Times(InPlaces(x, kappa - mk), StepOf(kappa, Pow(2, s)) as real) == Times(Times(x, Factor(mk, s)),
        UnitOf(kappa) as real)
    ensures UnitOf(kappa) > 0 && StepOf(kappa, Pow(2, s)) > 0
  {
    hide Exp, Pow, StepOf, UnitOf, Factor;
    var e := kappa - mk;
    PlaceValue(1, kappa, mk, s);
    ExpAdd(10, e, -e);
    ExpZero(10);
    OneStep(x, Exp(10, e), Exp(10, -e), Factor(mk, s), UnitOf(kappa) as real, StepOf(kappa, Pow(2, s)) as real);
  }

  lemma {:induction false} OneStep(x: real, t: real, r: real, f: real, unit: real, step: real)
    requires t * r == 1.0 && (1.0 * t) * f * unit == step
    ensures (x * r) * step == (x * f) * unit
  {
    assert (x * r) * step == (x * f) * unit * (t * r);
  }

  lemma {:induction false} IsAround(w: DiyFp, x: real, c0: nat, kappa: int, mk: int, rest: int)
    requires -60 <= w.e <= 0 && Estimates(w, x, Factor(mk, -w.e)) &&
             Generated(w.f as int, c0, StepOf(kappa, Pow(2, -w.e)), UnitOf(kappa), rest)
    ensures Around(InPlaces(x, kappa - mk), c0, StepOf(kappa, Pow(2, -w.e)), UnitOf(kappa), rest)
  {
    hide Exp, Pow, StepOf, UnitOf, Factor, Times, InPlaces;
    StepInPlaces(x, kappa, mk, -w.e);
    WithinUnit(Times(x, Factor(mk, -w.e)), w.f as int, UnitOf(kappa), c0 * StepOf(kappa, Pow(2, -w.e)) + rest);
  }

  lemma {:induction false} WithinUnit(x: real, f: int, unit: int, p: int)
    requires -1.0 < x - f as real < 1.0 && unit > 0 && f * unit == p
    ensures (p - unit) as real < Times(x, unit as real) < (p + unit) as real
  {
    hide Times;
    var u := unit as real;
    TimesCast(f, unit);
    TimesOrder(f as real - 1.0, x, u);
    TimesOrder(x, f as real + 1.0, u);
    Halved(f as real, u);
  }

  /** A certain count is the number rounded to as many digits. */
  lemma {:induction false} CountedIsPrecise(v: Double, w: DiyFp, c: nat, n: nat, kappa: int, mk: int, c0: nat,
                                            kappa0: int, rest: int, point: int)
    requires -60 <= w.e <= 0 && Estimates(w, v.Value(), Factor(mk, -w.e)) &&
             CountedOutcome(w, true, c, n, kappa, c0, kappa0, rest) && InDecade(v, point)
    ensures Decimal(c, kappa - mk) == RoundedAt(v.Value(), n - point) && Pow(10, n - 1) <= c
  {
    hide Exp, Pow, Double.Value, InPlaces, HalfUp, RoundedAt, Decimal, StepOf, UnitOf, Factor, Estimates, Around,
         Generated, ClearlyDown, ClearlyUp, ClearOfDecade, InDecade;
    var e0, step, unit := kappa0 - mk, StepOf(kappa0, Pow(2, -w.e)), UnitOf(kappa0);
    IsAround(w, v.Value(), c0, kappa0, mk, rest);
    var y := InPlaces(v.Value(), e0);
    var cc := if ClearlyDown(rest, step, unit) then c0 else c0 + 1;
    if ClearlyDown(rest, step, unit) {
      RoundsDown(y, c0, step, unit, rest);
      } else { RoundsUp(y, c0, step, unit, rest);
    }
    if c0 == Pow(10, n - 1) { NearDecade(y, c0, n, step, unit, rest); }
    HalfUpBounds(y, cc);
    if !ClearlyDown(rest, step, unit) { UpIsAbove(y, c0); }
    RoundedInDecade(v, e0, n, c0, cc, point);
    if kappa == kappa0 + 1 {
      CoarseDecimal(c, e0, 1);
      PowBasics(10);
    }
    AroundUnit(y, c0, step, unit, rest);
    Exclusive(rest, step, unit);
  }

  lemma {:induction false} UpIsAbove(y: real, c0: int)
    requires (c0 + 1) as real - 0.5 <= y
    ensures c0 as real - 0.5 <= y
  {
  }

  lemma {:induction false} Exclusive(rest: int, step: int, unit: int)
    requires unit > 0
    ensures !(ClearlyDown(rest, step, unit) && ClearlyUp(rest, step, unit))
  {
  }

  lemma {:induction false} AroundUnit(y: real, c0: nat, step: int, unit: int, rest: int)
    requires Around(y, c0, step, unit, rest)
    ensures unit > 0
  {
  }

  /** Whether rounding is certain, as the digits of the scaled number tell: all of them were generated and what is left
      is clearly below or above half a step, or is not; or the digits ran out first. */
  ghost predicate CountDecided(v: Double, power: DiyFp, requestedDigits: nat, r: bool, c: nat, length: nat,
                               kappa: int) {
    exists w, sw, c0: nat, kappa0, rest ::
      CountDecidedBy(v, power, requestedDigits, r, c, length, kappa, w, sw, c0, kappa0, rest)
  }

  ghost predicate CountDecidedBy(v: Double, power: DiyFp, requestedDigits: nat, r: bool, c: nat, length: nat,
                                 kappa: int,
                                 w: DiyFp, sw: DiyFp, c0: nat, kappa0: int, rest: int) {
    && IsNormalized(v, w) && IsProduct(sw, w, power) && sw.e <= 0
    && if length == requestedDigits then CountedOutcome(sw, r, c, length, kappa, c0, kappa0, rest)
       else !r && Exhausted(sw, c, kappa)
  }

  lemma {:induction false} CountIsDecided(v: Double, power: DiyFp, requestedDigits: nat, r: bool, c: nat, length: nat,
                                          kappa: int, w: DiyFp, sw: DiyFp, c0: nat, kappa0: int, rest: int)
    requires IsNormalized(v, w) && IsProduct(sw, w, power) && sw.e <= 0 && length <= requestedDigits
    requires length == requestedDigits ==> CountedOutcome(sw, r, c, length, kappa, c0, kappa0, rest)
    requires length < requestedDigits ==> !r && Exhausted(sw, c, kappa)
    ensures CountDecided(v, power, requestedDigits, r, c, length, kappa)
  {
    hide IsNormalized, IsProduct, CountedOutcome, Exhausted;
    assert CountDecidedBy(v, power, requestedDigits, r, c, length, kappa, w, sw, c0, kappa0, rest);
  }

  /** Grisu3 for a requested number of digits. */
  method Grisu3Counted(v: Double, requestedDigits: nat, buffer: array<char>, table: seq<DiyFp>, index: nat)
    returns (r: bool, length: nat, decimalExponent: int)
    requires 0 < v.d64 && v.Finite() && AccurateTable(table) && InTargetRange(v, table, index) &&
             0 < requestedDigits <= buffer.Length
    modifies buffer
    ensures 0 < length <= requestedDigits && AllDigits(buffer[..length])
    ensures CountDecided(v, table[index], requestedDigits, r, DecimalValue(buffer[..length]), length,
                         decimalExponent + 8 * index - 348)
    ensures r ==> length == requestedDigits && Pow(10, length - 1) <= DecimalValue(buffer[..length])
    ensures r ==> forall point :: InDecade(v, point) ==>
              Decimal(DecimalValue(buffer[..length]), decimalExponent) == RoundedAt(v.Value(), requestedDigits - point)
  {
    hide Exp, Pow, Double.Value, DiyFp.Value, Double.Exponent, Double.Significand, DecimalValue, HalfUlp, AccurateTable,
         CountedOutcome, IsProduct, Exactly, InDecade, Estimates, RoundedAt, Decimal, Exhausted,
         CountDecided;
    var w := AsNormalizedDiyFp(v);
    NumberExactly(v, w);
    assert IsNormalized(v, w);
    var tenMk, mk := GetCachedPowerForBinaryExponentRange(MINIMAL_TARGET_EXPONENT - (w.e + 64),
                                                          MAXIMAL_TARGET_EXPONENT - (w.e + 64), table, index);
    var scaledW := Multiply(w, tenMk);
    ProductExponent(scaledW, w, tenMk);
    ProductLarge(w, tenMk, scaledW);
    ProductEstimates(v.Value(), w, tenMk, mk, scaledW);
    var kappa;
    ghost var c0, kappa0, rest;
    r, length, kappa, c0, kappa0, rest := DigitGenCounted(scaledW, requestedDigits, buffer);
    decimalExponent := -mk + kappa;
    CountIsDecided(v, table[index], requestedDigits, r, DecimalValue(buffer[..length]), length, kappa, w, scaledW, c0,
                   kappa0, rest);
    if r {
      ghost var c := DecimalValue(buffer[..length]);
      CountedEnough(scaledW, c, length, kappa, c0, kappa0, rest);
      forall point | InDecade(v, point)
        ensures Decimal(c, decimalExponent) == RoundedAt(v.Value(), requestedDigits - point)
      {
        CountedIsPrecise(v, scaledW, c, length, kappa, mk, c0, kappa0, rest, point);
      }
    }
  }

  lemma {:induction false} ProductExponent(r: DiyFp, a: DiyFp, b: DiyFp)
    requires IsProduct(r, a, b)
    ensures r.e == a.e + b.e + 64
  {
  }

  lemma {:induction false} ProductLarge(a: DiyFp, b: DiyFp, r: DiyFp)
    requires IsProduct(r, a, b) && a.f as int >= TWO63 && b.f as int >= TWO63
    ensures r.f as int >= TWO63 / 2
  {
    MulMono(TWO63, a.f as int, b.f as int);
    MulMono(TWO63, b.f as int, TWO63);
  }

  lemma {:induction false} CountedEnough(w: DiyFp, c: nat, n: nat, kappa: int, c0: nat, kappa0: int, rest: int)
    requires -60 <= w.e <= 0 && CountedOutcome(w, true, c, n, kappa, c0, kappa0, rest)
    ensures Pow(10, n - 1) <= c
  {
    hide Pow, StepOf, UnitOf, Generated;
  }

  /** The fast printer for a given precision. */
  method FastDtoaPrecision(v: Double, requestedDigits: nat, buffer: array<char>, table: seq<DiyFp>, index: nat)
    returns (r: bool, length: nat, decimalPoint: int)
    requires 0 < v.d64 && v.Finite() && AccurateTable(table) && InTargetRange(v, table, index) &&
             0 < requestedDigits < buffer.Length
    modifies buffer
    ensures r ==> length == requestedDigits && AllDigits(buffer[..length]) && buffer[length] == '\0'
    ensures r ==> IsDtoa(v, PrecisionMode, requestedDigits, buffer[..length], decimalPoint)
    ensures exists c, n, kappa :: CountDecided(v, table[index], requestedDigits, r, c, n, kappa)
  {
    hide DecimalValue, AccurateTable, InTargetRange, InDecade, RoundedAt, Decimal, Pow, CountDecided;
    var decimalExponent;
    decimalPoint := 0;
    r, length, decimalExponent := Grisu3Counted(v, requestedDigits, buffer, table, index);
    if r {
      decimalPoint := length + decimalExponent;
      assert decimalPoint - length == decimalExponent;
      ghost var digits := buffer[..length];
      buffer[length] := '\0';
      assert buffer[..length] == digits;
    }
  }
}
