/** The fast parser: 64-bit arithmetic with a tracked error, in eighths of a unit. */
module FastStrtod {
  import opened Arith
  import opened RealPowers
  import opened Powers
  import opened Decimals
  import opened Ieee
  import opened DecimalRounding
  import opened DtoaFixup
  import opened PowerEstimate
  import opened StrtodTrim
  import opened DiyFps
  import opened RoundToDouble

  const MAX_UINT64_DECIMAL_DIGITS := 19
  const MIN_CACHED_EXPONENT := -348
  const MAX_CACHED_EXPONENT := 340
  const DECIMAL_EXPONENT_DISTANCE := 8

  /** The product error of the loop condition: one more digit still fits in 64 bits. */
  const READ_LIMIT: uint64 := 1844674407370955160

  /** Reads digits while another one is sure to fit. */
  method ReadUint64(buffer: seq<char>) returns (result: uint64, numberOfReadDigits: nat)
    requires AllDigits(buffer)
    ensures numberOfReadDigits <= |buffer| && result as int == DecimalValue(buffer[..numberOfReadDigits])
    ensures numberOfReadDigits < |buffer| ==> result > READ_LIMIT && numberOfReadDigits >= 19
    ensures result as int < TWO64 - 1
  {
    hide DecimalValue, Pow;
    result := 0;
    var i := 0;
    DecimalEmpty(buffer[..0]);
    while i < |buffer| && result <= READ_LIMIT
      invariant i <= |buffer| && result as int == DecimalValue(buffer[..i]) && result as int < TWO64 - 1
    {
      DecimalSnoc(buffer, i);
      var digit := buffer[i] as int - '0' as int;
      i := i + 1;
      result := 10 * result + digit as uint64;
    }
    numberOfReadDigits := i;
    if i < |buffer| && i < 19 {
      DecimalBound(buffer[..i]);
      PowMono(10, i, 18);
      Ten18();
      assert false;
    }
  }

  lemma {:induction false} Ten18()
    ensures Pow(10, 18) == 1_000_000_000_000_000_000
  {
    hide Pow;
    Ten16();
    PowAdd(10, 16, 2);
    PowAdd(10, 1, 1);
    PowBasics(10);
  }

  /** v / t is at most one half away from d. */
  ghost predicate HalfUnitOff(v: int, d: int, t: int) {
    -t <= 2 * (v - d * t) <= t
  }

  /** The digits as a significand, rounded at the last digit that fits; `remainingDecimals` have been dropped. */
  method ReadDiyFp(buffer: seq<char>) returns (result: DiyFp, remainingDecimals: nat)
    requires AllDigits(buffer)
    ensures result.e == 0 && remainingDecimals <= |buffer|
    ensures remainingDecimals == 0 ==> result.f as int == DecimalValue(buffer)
    ensures remainingDecimals > 0 ==> result.f > READ_LIMIT
    ensures |buffer| < MAX_UINT64_DECIMAL_DIGITS ==> remainingDecimals == 0
    ensures HalfUnitOff(DecimalValue(buffer), result.f as int, Pow(10, remainingDecimals))
  {
    hide DecimalValue, Pow;
    var significand, readDigits := ReadUint64(buffer);
    PowBasics(10);
    if |buffer| == readDigits {
      assert buffer[..readDigits] == buffer;
      result := DiyFp(significand, 0);
      remainingDecimals := 0;
    } else {
      RoundedTail(buffer, readDigits);
      if buffer[readDigits] >= '5' {
        significand := significand + 1;
      }
      result := DiyFp(significand, 0);
      remainingDecimals := |buffer| - readDigits;
    }
  }

  /** The first dropped digit tells on which side of one half the dropped tail is. */
  lemma {:induction false} RoundedTail(s: seq<char>, i: nat)
    requires AllDigits(s) && i < |s|
    ensures var t: int, p := Pow(10, |s| - i), DecimalValue(s[..i]);
            && (s[i] >= '5' ==> -t <= 2 * (DecimalValue(s) - (p + 1) * t) <= 0)
            && (s[i] < '5' ==> 0 <= 2 * (DecimalValue(s) - p * t) <= t)
  {
    hide DecimalValue, Pow;
    var t, p, q := Pow(10, |s| - i), DecimalValue(s[..i]), Pow(10, |s| - i - 1);
    var d := s[i] as int - '0' as int;
    assert s == s[..i] + s[i..];
    DecimalConcat(s[..i], s[i..]);
    assert s[i..] == [s[i]] + s[i + 1..];
    DecimalConcat([s[i]], s[i + 1..]);
    OneDigit([s[i]]);
    DecimalBound(s[i + 1..]);
    PowAdd(10, 1, |s| - i - 1);
    PowBasics(10);
    assert (p + 1) * t == p * t + t;
    if s[i] >= '5' { MulMono(5, d, q); MulMono(d, 9, q); } else { MulMono(d, 4, q); MulMono(0, d, q); }
  }

  lemma {:induction false} OneDigit(s: seq<char>)
    requires |s| == 1 && AllDigits(s)
    ensures DecimalValue(s) == s[0] as int - '0' as int
  {
    assert s[..0] == [];
  }

  /** x is at most `error` eighths of a unit away from d. */
  ghost predicate Within(x: real, d: DiyFp, error: int) {
    var scaled := 8.0 * (x * Exp(2, -d.e) - d.f as real);
    -(error as real) <= scaled <= error as real
  }

  /** The powers between two cached ones, exactly. */
  function AdjustmentPowerOfTen(exponent: int): DiyFp
    requires 0 < exponent < DECIMAL_EXPONENT_DISTANCE
  {
    match exponent
    case 1 => DiyFp(0xa000_0000_0000_0000, -60)
    case 2 => DiyFp(0xc800_0000_0000_0000, -57)
    case 3 => DiyFp(0xfa00_0000_0000_0000, -54)
    case 4 => DiyFp(0x9c40_0000_0000_0000, -50)
    case 5 => DiyFp(0xc350_0000_0000_0000, -47)
    case 6 => DiyFp(0xf424_0000_0000_0000, -44)
    case _ => DiyFp(0x9896_8000_0000_0000, -40)
  }

  lemma {:induction false} AdjustmentIsExact(exponent: int)
    requires 0 < exponent < DECIMAL_EXPONENT_DISTANCE
    ensures var a := AdjustmentPowerOfTen(exponent);
            a.e < 0 && a.f as int >= TWO63 && a.f as int == Pow(10, exponent) * Pow(2, -a.e)
  {
    hide Pow;
    TwosTo60();
    TensTo7();
  }

  lemma {:induction false} TwosTo60()
    ensures Pow(2, 40) == 0x100_0000_0000 && Pow(2, 44) == 0x1000_0000_0000 && Pow(2, 47) == 0x8000_0000_0000
    ensures Pow(2, 50) == 0x4_0000_0000_0000 && Pow(2, 54) == 0x40_0000_0000_0000
    ensures Pow(2, 57) == 0x200_0000_0000_0000 && Pow(2, 60) == 0x1000_0000_0000_0000
  {
    hide Pow;
    TwoTo38();
    SmallTwos();
    PowAdd(2, 38, 2);
    PowAdd(2, 40, 4);
    PowAdd(2, 44, 3);
    PowAdd(2, 47, 3);
    PowAdd(2, 50, 4);
    PowAdd(2, 54, 3);
    PowAdd(2, 57, 3);
  }

  lemma {:induction false} SmallTwos()
    ensures Pow(2, 2) == 4 && Pow(2, 3) == 8 && Pow(2, 4) == 16
  {
  }

  lemma {:induction false} TensTo7()
    ensures Pow(10, 1) == 10 && Pow(10, 2) == 100 && Pow(10, 3) == 1000 && Pow(10, 4) == 10000
    ensures Pow(10, 5) == 100000 && Pow(10, 6) == 1000000 && Pow(10, 7) == 10000000
  {
  }

  /** Each cached power is normalized and within half a unit; the first entry is the one in the source. */
  ghost predicate AccurateTable(table: seq<DiyFp>) {
    && |table| == 87 && table[0] == DiyFp(0xfa8f_d5a0_081c_0288, -1220)
    && forall i :: 0 <= i < |table| ==> table[i].f as int >= TWO63 && HalfUlp(table[i], 8 * i - 348)
  }

  ghost predicate HalfUlp(power: DiyFp, exponent: int) {
    -1.0 <= 2.0 * (Exp(10, exponent) * Exp(2, -power.e) - power.f as real) <= 1.0
  }

  method GetCachedPowerForDecimalExponent(requestedExponent: int, table: seq<DiyFp>)
    returns (power: DiyFp, foundExponent: int)
    requires AccurateTable(table)
    requires MIN_CACHED_EXPONENT <= requestedExponent < MAX_CACHED_EXPONENT + DECIMAL_EXPONENT_DISTANCE
    ensures foundExponent <= requestedExponent < foundExponent + DECIMAL_EXPONENT_DISTANCE &&
            (foundExponent + 348) % 8 == 0
    ensures power.f as int >= TWO63 && HalfUlp(power, foundExponent)
    ensures foundExponent == MIN_CACHED_EXPONENT ==> power == DiyFp(0xfa8f_d5a0_081c_0288, -1220)
  {
    hide HalfUlp;
    var index := (requestedExponent + 348) / DECIMAL_EXPONENT_DISTANCE;
    power := table[index];
    foundExponent := 8 * index - 348;
  }

  ghost function ScaledByTens(x: real, exponent: int): real {
    x * Exp(10, exponent)
  }

  ghost predicate ExactPower(power: DiyFp, exponent: int) {
    power.f as real * Exp(2, power.e) == Exp(10, exponent)
  }

  /** The product of two significands is rounded by half a unit at most. */
  lemma {:induction false} ProductRounding(f: int, g: int, r: int)
    requires 0 <= f < TWO64 && 0 <= g < TWO64 && r == (f * g + TWO63) / TWO64
    ensures -TWO63 <= f * g - r * TWO64 <= TWO63
  {
    var n := f * g + TWO63;
    assert n == r * TWO64 + n % TWO64;
  }

  /** A product of two numbers no greater than their bounds. */
  lemma {:induction false} ProductAtMost(a: real, bound: real, b: real, limit: real)
    requires -bound <= a <= bound && -limit <= b <= limit && bound >= 0.0 && limit >= 0.0
    ensures -(bound * limit) <= a * b <= bound * limit
  {
    NonNegative(bound - a, limit + b);
    NonNegative(bound + a, limit - b);
    NonNegative(bound - a, limit - b);
    NonNegative(bound + a, limit + b);
    FourProducts(a, bound, b, limit);
  }

  lemma {:induction false} NonNegative(a: real, b: real)
    requires a >= 0.0 && b >= 0.0
    ensures a * b >= 0.0
  {
  }

  lemma {:induction false} FourProducts(a: real, m: real, b: real, n: real)
    ensures (m - a) * (n + b) + (m + a) * (n - b) == 2.0 * (m * n) - 2.0 * (a * b)
    ensures (m - a) * (n - b) + (m + a) * (n + b) == 2.0 * (m * n) + 2.0 * (a * b)
  {
  }

  /** Multiplying by an exact power adds half a unit of rounding. */
  lemma {:induction false} ExactFactor(x: real, a: DiyFp, power: DiyFp, exponent: int, r: DiyFp, error: int)
    requires Within(x, a, error) && error >= 0 && ExactPower(power, exponent)
    requires IsProduct(r, a, power)
    ensures Within(ScaledByTens(x, exponent), r, error + 4)
  {
    hide Exp, Pow;
    ProductRounding(a.f as int, power.f as int, r.f as int);
    ScaledProduct(x, Exp(10, exponent), a.e, power.e);
    PowerOverUnit(power.f as real, power.e);
    CastProduct(a.f as int, power.f as int);
    var s, g := x * Exp(2, -a.e), power.f as real;
    ExactError(s, a.f as real, g, r.f as real, error as real, (s * g) / 0x1_0000_0000_0000_0000 as real);
  }

  /** The product is exact if its low 64 bits are zero. */
  lemma {:induction false} ExactProduct(x: real, a: DiyFp, power: DiyFp, exponent: int, r: DiyFp)
    requires Within(x, a, 0) && ExactPower(power, exponent)
    requires IsProduct(r, a, power)
    requires a.f as int * power.f as int % TWO64 == 0
    ensures Within(ScaledByTens(x, exponent), r, 0)
  {
    hide Exp, Pow;
    ScaledProduct(x, Exp(10, exponent), a.e, power.e);
    PowerOverUnit(power.f as real, power.e);
    CastProduct(a.f as int, power.f as int);
    ExactQuotient(a.f as int * power.f as int, r.f as int);
    var s, g := x * Exp(2, -a.e), power.f as real;
    ExactSame(s, a.f as real, g, r.f as real, (s * g) / 0x1_0000_0000_0000_0000 as real);
  }

  lemma {:induction false} ExactQuotient(n: int, r: int)
    requires n >= 0 && n % TWO64 == 0 && r == (n + TWO63) / TWO64
    ensures n == r * TWO64
  {
  }

  lemma {:induction false} ExactSame(s: real, f: real, g: real, r: real, scaled: real)
    requires s == f && f * g == r * 0x1_0000_0000_0000_0000 as real && scaled * 0x1_0000_0000_0000_0000 as real == s * g
    ensures scaled == r
  {
  }

  /** x * factor in units of 2^(e + e' + 64) is the product of the scaled parts over 2^64. */
  lemma {:induction false} ScaledProduct(x: real, factor: real, e: int, e': int)
    ensures (x * factor) * Exp(2, -(e + e' + 64))
            == ((x * Exp(2, -e)) * (factor * Exp(2, -e'))) / 0x1_0000_0000_0000_0000 as real
  {
    hide Exp, Pow;
    ExpAdd(2, -(e + e' + 64), 64);
    assert -(e + e' + 64) + 64 == -e + -e';
    ExpAdd(2, -e, -e');
    ExpNat(2, 64);
    Pow2Word(64);
    SplitUnits(x, factor, Exp(2, -(e + e' + 64)), Exp(2, -e), Exp(2, -e'), 0x1_0000_0000_0000_0000 as real);
  }

  lemma {:induction false} SplitUnits(x: real, c: real, u: real, a: real, b: real, w: real)
    requires u * w == a * b && w > 0.0
    ensures (x * c) * u == ((x * a) * (c * b)) / w
  {
    assert (x * a) * (c * b) == (x * c) * (a * b) by { Interchange(x, a, c, b); }
    assert (x * c) * (u * w) == ((x * c) * u) * w;
  }

  lemma {:induction false} Interchange(x: real, a: real, c: real, b: real)
    ensures (x * a) * (c * b) == (x * c) * (a * b)
  {
    calc {
      (x * a) * (c * b);
      ((x * a) * c) * b;
      ((x * c) * a) * b;
      (x * c) * (a * b);
    }
  }

  lemma {:induction false} PowerOverUnit(f: real, e: int)
    ensures (f * Exp(2, e)) * Exp(2, -e) == f
  {
    hide Exp;
    ExpNeg(2, e);
    assert Exp(2, -e) * Exp(2, e) == 1.0;
    Regroup1(f, Exp(2, e), Exp(2, -e));
  }

  lemma {:induction false} ExactError(s: real, f: real, g: real, r: real, error: real, scaled: real)
    requires -error <= 8.0 * (s - f) <= error && 0.0 <= g <= 0x1_0000_0000_0000_0000 as real && error >= 0.0
    requires -(0x8000_0000_0000_0000 as real)
             <= f * g - r * 0x1_0000_0000_0000_0000 as real <= 0x8000_0000_0000_0000 as real &&
             scaled * 0x1_0000_0000_0000_0000 as real == s * g
    ensures -(error + 4.0) <= 8.0 * (scaled - r) <= error + 4.0
  {
    ProductAtMost(8.0 * (s - f), error, g, 0x1_0000_0000_0000_0000 as real);
    assert (8.0 * (s - f)) * g == 8.0 * (s * g) - 8.0 * (f * g);
  }

  /** Multiplying by a power that is half a unit off. */
  lemma {:induction false} RoundedFactor(x: real, a: DiyFp, power: DiyFp, exponent: int, r: DiyFp, error: int)
    requires Within(x, a, error) && 0 <= error <= 1000 && HalfUlp(power, exponent)
    requires IsProduct(r, a, power)
    ensures Near(ScaledByTens(x, exponent), r, error + 8 + if error == 0 then 0 else 1)
  {
    hide Exp, Pow;
    ProductRounding(a.f as int, power.f as int, r.f as int);
    ScaledProduct(x, Exp(10, exponent), a.e, power.e);
    CastProduct(a.f as int, power.f as int);
    var s, c := x * Exp(2, -a.e), Exp(10, exponent) * Exp(2, -power.e);
    RoundedError(s, a.f as real, c, power.f as real, r.f as real, error as real,
                 (s * c) / 0x1_0000_0000_0000_0000 as real);
  }

  lemma {:induction false} RoundedError(s: real, f: real, c: real, g: real, r: real, error: real, scaled: real)
    requires -error <= 8.0 * (s - f) <= error && 0.0 <= error <= 1000.0
    requires -1.0 <= 2.0 * (c - g) <= 1.0 && 0.0 <= f < 0x1_0000_0000_0000_0000 as real &&
             0.0 <= g < 0x1_0000_0000_0000_0000 as real
    requires -(0x8000_0000_0000_0000 as real)
             <= f * g - r * 0x1_0000_0000_0000_0000 as real <= 0x8000_0000_0000_0000 as real &&
             scaled * 0x1_0000_0000_0000_0000 as real == s * c
    ensures var bound := error + 8.0 + if error == 0.0 then 0.0 else 1.0;
            error == 0.0 || error >= 1.0 ==> -bound < 8.0 * (scaled - r) < bound
  {
    ProductAtMost(8.0 * (s - f), error, g, 0x1_0000_0000_0000_0000 as real);
    UnitFactor(f, f, 2.0 * (c - g));
    UnitFactor(8.0 * (s - f), error, 2.0 * (c - g));
    ErrorTerms(s, f, c, g);
    TotalError((8.0 * (s - f)) * g, f * (2.0 * (c - g)), (8.0 * (s - f)) * (2.0 * (c - g)), f * g, s * c, f, r, error,
               scaled);
  }

  lemma {:induction false} UnitFactor(a: real, bound: real, b: real)
    requires -bound <= a <= bound && -1.0 <= b <= 1.0
    ensures -bound <= a * b <= bound
  {
    ProductAtMost(a, bound, b, 1.0);
  }

  lemma {:induction false} TotalError(p1: real, p2: real, p3: real, fg: real, sc: real, f: real, r: real, error: real,
                                      scaled: real)
    requires -(error * 0x1_0000_0000_0000_0000 as real) <= p1 <= error * 0x1_0000_0000_0000_0000 as real
    requires -f <= p2 <= f < 0x1_0000_0000_0000_0000 as real && -error <= p3 <= error <= 1000.0
    requires 16.0 * (sc - fg) == 2.0 * p1 + 8.0 * p2 + p3 && scaled * 0x1_0000_0000_0000_0000 as real == sc
    requires -(0x8000_0000_0000_0000 as real)
             <= fg - r * 0x1_0000_0000_0000_0000 as real <= 0x8000_0000_0000_0000 as real
    ensures -(error + 9.0) < 8.0 * (scaled - r) < error + 9.0
    ensures error == 0.0 ==> -8.0 < 8.0 * (scaled - r) < 8.0
  {
  }

  lemma {:induction false} ErrorTerms(s: real, f: real, c: real, g: real)
    ensures 16.0 * (s * c - f * g)
         == 2.0 * ((8.0 * (s - f)) * g) + 8.0 * (f * (2.0 * (c - g))) + (8.0 * (s - f)) * (2.0 * (c - g))
  {
    var p, q := s - f, c - g;
    assert s * c - f * g == p * g + f * q + p * q by {
      assert s == f + p && c == g + q;
      assert (f + p) * (g + q) == f * g + f * q + p * g + p * q;
    }
    assert (8.0 * p) * g == 8.0 * (p * g) && f * (2.0 * q) == 2.0 * (f * q) && (8.0 * p) * (2.0 * q) == 16.0 * (p * q);
  }

  /** A shift keeps the value and scales the error. */
  lemma {:induction false} ShiftedWithin(x: real, a: DiyFp, r: DiyFp, error: nat)
    requires Within(x, a, error) && IsShifted(r, a)
    ensures Within(x, r, error * Pow(2, a.e - r.e))
  {
    hide Exp, Pow;
    var shift := a.e - r.e;
    ExpAdd(2, -a.e, shift);
    ExpNat(2, shift);
    assert -r.e == -a.e + shift;
    CastProduct(a.f as int, Pow(2, shift));
    CastProduct(error, Pow(2, shift));
    ScaledWithin(x, Exp(2, -a.e), a.f as real, Pow(2, shift) as real, error as real);
  }

  lemma {:induction false} ScaledWithin(x: real, u: real, f: real, w: real, error: real)
    requires -error <= 8.0 * (x * u - f) <= error && w > 0.0
    ensures -(error * w) <= 8.0 * (x * (u * w) - f * w) <= error * w
  {
    RealAssociate(x, u, w);
    WithinTimes(x * u, f, w, error);
  }

  lemma {:induction false} WithinTimes(s: real, f: real, w: real, error: real)
    requires -error <= 8.0 * (s - f) <= error && w > 0.0
    ensures -(error * w) <= 8.0 * (s * w - f * w) <= error * w
  {
    NonNegative(error - 8.0 * (s - f), w);
    NonNegative(error + 8.0 * (s - f), w);
    assert (error - 8.0 * (s - f)) * w == error * w - 8.0 * (s * w - f * w);
    assert (error + 8.0 * (s - f)) * w == error * w + 8.0 * (s * w - f * w);
  }

  lemma {:induction false} ShiftedNear(x: real, a: DiyFp, r: DiyFp, error: nat)
    requires Near(x, a, error) && IsShifted(r, a)
    ensures Near(x, r, error * Pow(2, a.e - r.e))
  {
    hide Exp, Pow;
    var shift := a.e - r.e;
    ExpAdd(2, -a.e, shift);
    ExpNat(2, shift);
    assert -r.e == -a.e + shift;
    CastProduct(a.f as int, Pow(2, shift));
    CastProduct(error, Pow(2, shift));
    ScaledNear(x, Exp(2, -a.e), a.f as real, Pow(2, shift) as real, error as real);
  }

  lemma {:induction false} ScaledNear(x: real, u: real, f: real, w: real, error: real)
    requires -error < 8.0 * (x * u - f) < error && w > 0.0
    ensures -(error * w) < 8.0 * (x * (u * w) - f * w) < error * w
  {
    RealAssociate(x, u, w);
    RealPositive(error - 8.0 * (x * u - f), w);
    RealPositive(error + 8.0 * (x * u - f), w);
    NearTimes(x * u, f, w, error);
  }

  lemma {:induction false} NearTimes(s: real, f: real, w: real, error: real)
    ensures (error - 8.0 * (s - f)) * w == error * w - 8.0 * (s * w - f * w)
    ensures (error + 8.0 * (s - f)) * w == error * w + 8.0 * (s * w - f * w)
  {
  }

  lemma {:induction false} HalfOff(x: real, d: real, t: real, v: real)
    requires t > 0.0 && x * t == v && -t <= 2.0 * (v - d * t) <= t
    ensures -4.0 <= 8.0 * (x - d) <= 4.0
  {
    assert (x - d) * t == v - d * t;
    AtMost(x - d, 0.5, t, v - d * t, 0.5 * t);
    AtMost(-0.5, x - d, t, -0.5 * t, v - d * t);
  }

  /** More than 60 bits need a shift of three at most. */
  lemma {:induction false} SmallShift(r: DiyFp, a: DiyFp, bits: nat)
    requires bits <= 63 && a.f as int >= Pow(2, bits) && IsShifted(r, a)
    ensures a.e - r.e + bits <= 63
  {
    hide Pow;
    var d, shift := a.f as int, a.e - r.e;
    if shift + bits > 63 {
      PowAdd(2, bits, shift);
      PowMono(2, 64, shift + bits);
      Pow2Word(64);
      MulMono(Pow(2, bits), d, Pow(2, shift));
    }
  }

  /** Normalizes the read digits and their error. */
  method NormalizeInput(read: DiyFp, errorIn: uint64, ghost x: real) returns (input: DiyFp, error: uint64)
    requires read.e == 0 && read.f > 0 && Within(x, read, errorIn as int)
    requires errorIn == 0 || (errorIn == 4 && read.f > READ_LIMIT)
    ensures input.f as int >= TWO63 && IsShifted(input, read)
    ensures error <= 32 && (errorIn == 0 ==> error == 0)
    ensures Within(x, input, error as int) && Within(read.f as real, input, 0)
  {
    hide Pow, Exp, Within;
    input := Normalize(read);
    DigitsWithin(read);
    ShiftedError(errorIn as int, read, input);
    ShiftedWithin(x, read, input, errorIn as int);
    ShiftedWithin(read.f as real, read, input, 0);
    error := (errorIn as int * Pow(2, read.e - input.e)) as uint64;
  }

  lemma {:induction false} ShiftedError(error: int, read: DiyFp, input: DiyFp)
    requires IsShifted(input, read) && (error == 0 || (error == 4 && read.f > READ_LIMIT))
    ensures input.e <= read.e && 0 <= error * Pow(2, read.e - input.e) <= 32 && 0 * Pow(2, read.e - input.e) == 0
    ensures error == 0 ==> error * Pow(2, read.e - input.e) == 0
  {
    hide Pow, IsShifted;
    ShiftOrder(input, read);
    if error > 0 {
      TwosTo60();
      SmallShift(input, read, 60);
      ShiftRange(read.e - input.e);
      MulMono(Pow(2, read.e - input.e), 8, error);
    }
  }

  /** The number the digits denote once the dropped ones are behind the decimal point. */
  ghost function ReadValue(buffer: seq<char>, remainingDecimals: nat): real
    requires AllDigits(buffer)
  {
    DecimalValue(buffer) as real * Exp(10, -(remainingDecimals as int))
  }

  /** The read digits stand for the number they were read from, half a unit off at most. */
  lemma {:induction false} ReadWithin(buffer: seq<char>, read: DiyFp, remaining: nat)
    requires AllDigits(buffer) && read.e == 0 && HalfUnitOff(DecimalValue(buffer), read.f as int, Pow(10, remaining))
    requires remaining == 0 ==> read.f as int == DecimalValue(buffer)
    ensures Within(ReadValue(buffer, remaining), read, if remaining == 0 then 0 else 4)
    ensures DecimalValue(buffer) > 0 ==> remaining == 0 ==> read.f > 0
  {
    hide Exp, Pow, DecimalValue;
    var v, t := DecimalValue(buffer), Pow(10, remaining);
    ExpZero(2);
    ExpZero(10);
    ScaledDecimal(v, remaining);
    ExpNat(10, remaining);
    CastProduct(read.f as int, t);
    if remaining > 0 { HalfOff(v as real * Exp(10, -(remaining as int)), read.f as real, t as real, v as real); }
  }

  /** Reads the digits and normalizes them. */
  method ReadInput(buffer: seq<char>) returns (input: DiyFp, remainingDecimals: nat, error: uint64, ghost d: nat)
    requires AllDigits(buffer) && DecimalValue(buffer) > 0
    ensures input.f as int >= TWO63 && remainingDecimals <= |buffer| && 0 < d < TWO64
    ensures IsShifted(input, DiyFp(d as uint64, 0))
    ensures error <= 32 && (remainingDecimals == 0 ==> error == 0 && d == DecimalValue(buffer))
    ensures |buffer| < MAX_UINT64_DECIMAL_DIGITS ==> remainingDecimals == 0
    ensures remainingDecimals > 0 ==> d > READ_LIMIT as int
    ensures Within(ReadValue(buffer, remainingDecimals), input, error as int)
    ensures Within(ReadValue(buffer, remainingDecimals), DiyFp(d as uint64, 0), if remainingDecimals == 0 then 0 else 4)
    ensures Within(d as real, input, 0)
  {
    hide DecimalValue, Pow, Exp, Within, HalfUnitOff, IsShifted, ReadValue;
    var read;
    read, remainingDecimals := ReadDiyFp(buffer);
    d := read.f as int;
    ReadWithin(buffer, read, remainingDecimals);
    error := if remainingDecimals == 0 then 0 else DENOMINATOR / 2;
    input, error := NormalizeInput(read, error, ReadValue(buffer, remainingDecimals));
  }

  lemma {:induction false} DigitsWithin(read: DiyFp)
    requires read.e == 0
    ensures Within(read.f as real, read, 0)
  {
    ExpZero(2);
  }

  lemma {:induction false} ShiftRange(shift: nat)
    requires shift <= 3
    ensures 1 <= Pow(2, shift) <= 8
  {
  }

  /** An even number below 2^64, scaled by a power of two to at least 2^126, has 64 zero bits. */
  lemma {:induction false} LowBitsZero(n: nat, q: nat, k: nat)
    requires n == (2 * q) * Pow(2, k) && 2 * q < TWO64 && n >= TWO63 * TWO63
    ensures n % TWO64 == 0
  {
    hide Pow;
    Pow2Word(64);
    if k < 63 {
      PowAdd(2, k, 62 - k);
      PowAdd(2, 62, 2);
      SmallTwos();
      MulMono(1, Pow(2, 62 - k), Pow(2, k));
      MulMono(2 * q, TWO64 - 1, Pow(2, k));
      assert false;
    } else {
      PowAdd(2, 63, k - 63);
      PowAdd(2, 63, 1);
      PowBasics(2);
      var r := q * Pow(2, k - 63);
      assert n == r * TWO64 by { Halved(q, Pow(2, 63), Pow(2, k - 63)); }
    }
  }

  lemma {:induction false} Halved(q: int, w: int, r: int)
    ensures (2 * q) * (w * r) == (q * r) * (2 * w)
  {
  }

  /** A short input times the adjustment fits in 64 bits, so their product has no low bits. */
  lemma {:induction false} ShortProduct(d: nat, length: nat, exponent: nat, f: DiyFp, g: DiyFp)
    requires 0 < exponent < DECIMAL_EXPONENT_DISTANCE && d < Pow(10, length) && length + exponent <= 19 && d < TWO64
    requires IsShifted(f, DiyFp(d as uint64, 0)) && g == AdjustmentPowerOfTen(exponent) && f.f as int >= TWO63
    ensures f.f as int * g.f as int % TWO64 == 0
  {
    hide Pow, AdjustmentPowerOfTen;
    AdjustmentIsExact(exponent);
    ShortProductBits(d, length, exponent, f.f as int, g.f as int, 0 - f.e, 0 - g.e);
  }

  lemma {:induction false} ShortProductBits(d: nat, length: nat, exponent: nat, f: nat, g: nat, s: nat, u: nat)
    requires d < Pow(10, length) && length + exponent <= 19 && exponent > 0
    requires f == d * Pow(2, s) && g == Pow(10, exponent) * Pow(2, u) && f >= TWO63 && g >= TWO63
    ensures f * g % TWO64 == 0
  {
    hide Pow;
    PowAdd(10, length, exponent);
    PowMono(10, length + exponent, 19);
    Ten19();
    PowAdd(10, 1, exponent - 1);
    PowBasics(10);
    PowAdd(2, s, u);
    var t := Pow(10, exponent);
    MulStrict(d, Pow(10, length), t);
    MulMono(TWO63, f, TWO63);
    MulMono(TWO63, g, f);
    var q := d * (5 * Pow(10, exponent - 1));
    assert 2 * q == d * t;
    Combined(d, Pow(2, s), t, Pow(2, u));
    LowBitsZero(f * g, q, s + u);
  }

  lemma {:induction false} Combined(d: int, a: int, t: int, b: int)
    ensures (d * a) * (t * b) == (d * t) * (a * b)
  {
    assert (d * a) * (t * b) == ((d * a) * t) * b;
    assert ((d * t) * a) * b == (d * t) * (a * b);
  }

  /** The product of normalized significands loses one bit at most. */
  lemma {:induction false} ProductSize(r: DiyFp, a: DiyFp, b: DiyFp, bits: int)
    requires TWO63 <= b.f as int && 0 <= bits && 2 * bits <= a.f as int && IsProduct(r, a, b)
    ensures r.f as int >= bits
  {
    var f, g := a.f as int, b.f as int;
    MulMono(TWO63, g, f);
    assert f * g >= f * TWO63 >= bits * TWO64;
  }

  lemma {:induction false} AdjustmentValue(exponent: int)
    requires 0 < exponent < DECIMAL_EXPONENT_DISTANCE
    ensures ExactPower(AdjustmentPowerOfTen(exponent), exponent)
  {
    hide Exp, Pow, AdjustmentPowerOfTen;
    AdjustmentIsExact(exponent);
    var a := AdjustmentPowerOfTen(exponent);
    ExpNat(10, exponent);
    ExpNat(2, -a.e);
    CastProduct(Pow(10, exponent), Pow(2, -a.e));
    ExpNeg(2, -a.e);
    Regroup1(Pow(10, exponent) as real, Exp(2, -a.e), Exp(2, a.e));
  }

  /** Multiplies by the power between the cached one and the requested one. */
  method AdjustInput(inputIn: DiyFp, errorIn: uint64, adjustmentExponent: int, length: nat, ghost x: real, ghost d: nat)
    returns (input: DiyFp, error: uint64)
    requires 0 < adjustmentExponent < DECIMAL_EXPONENT_DISTANCE && errorIn <= 32 && inputIn.f as int >= TWO63 &&
             d < TWO64
    requires IsShifted(inputIn, DiyFp(d as uint64, 0)) && Within(d as real, inputIn, 0) &&
             Within(x, inputIn, errorIn as int)
    requires length < MAX_UINT64_DECIMAL_DIGITS ==> errorIn == 0 && d < Pow(10, length)
    ensures input.f as int >= TWO63 / 2 && error <= 36
    ensures Within(ScaledByTens(x, adjustmentExponent), input, error as int)
    ensures Within(ScaledByTens(d as real, adjustmentExponent), input, 4)
    ensures IsProduct(input, inputIn, AdjustmentPowerOfTen(adjustmentExponent))
  {
    hide Exp, Pow, Within, AdjustmentPowerOfTen, IsShifted, IsProduct, ScaledByTens, ExactPower;
    error := errorIn;
    var adjustmentPower := AdjustmentPowerOfTen(adjustmentExponent);
    AdjustmentIsExact(adjustmentExponent);
    AdjustmentValue(adjustmentExponent);
    input := Multiply(inputIn, adjustmentPower);
    ProductSize(input, inputIn, adjustmentPower, TWO63 / 2);
    ExactFactor(d as real, inputIn, adjustmentPower, adjustmentExponent, input, 0);
    if MAX_UINT64_DECIMAL_DIGITS - length >= adjustmentExponent {
      ShortProduct(d, length, adjustmentExponent, inputIn, adjustmentPower);
      ExactProduct(x, inputIn, adjustmentPower, adjustmentExponent, input);
    } else {
      ExactFactor(x, inputIn, adjustmentPower, adjustmentExponent, input, errorIn as int);
      error := error + DENOMINATOR / 2;
    }
  }

  /** Multiplies by the cached power and normalizes; the error grows by nine eighths at most, then with the shift. */
  method MultiplyByCached(inputIn: DiyFp, errorIn: uint64, power: DiyFp, exponent: int, ghost x: real, ghost y: real)
    returns (input: DiyFp, error: uint64, ghost product: DiyFp)
    requires inputIn.f as int >= TWO63 / 2 && errorIn <= 36 && power.f as int >= TWO63 && HalfUlp(power, exponent)
    requires Within(x, inputIn, errorIn as int) && Within(y, inputIn, 4)
    ensures input.f as int >= TWO63 && 0 < error <= 400
    ensures Near(ScaledByTens(x, exponent), input, error as int) && Near(ScaledByTens(y, exponent), input, 52)
    ensures IsProduct(product, inputIn, power) && IsShifted(input, product)
  {
    hide Exp, Pow, Within, Near, HalfUlp, IsShifted, IsProduct, ScaledByTens;
    var scaled := Multiply(inputIn, power);
    product := scaled;
    RoundedFactor(x, inputIn, power, exponent, product, errorIn as int);
    RoundedFactor(y, inputIn, power, exponent, product, 4);
    ProductSize(product, inputIn, power, TWO63 / 4);
    var errorB: uint64, errorAB: uint64, fixedError: uint64 := DENOMINATOR / 2, if errorIn == 0 then 0
        else 1, DENOMINATOR / 2;
    error := errorIn + errorB + errorAB + fixedError;
    input := Normalize(scaled);
    SmallError(input, scaled, error as int);
    ShiftedNear(ScaledByTens(x, exponent), scaled, input, error as int);
    ShiftedNear(ScaledByTens(y, exponent), scaled, input, 13);
    NearWeaker(ScaledByTens(y, exponent), input, 13 * Pow(2, scaled.e - input.e), 52);
    error := (error as int * Pow(2, scaled.e - input.e)) as uint64;
  }

  lemma {:induction false} SmallError(input: DiyFp, product: DiyFp, error: int)
    requires IsShifted(input, product) && product.f as int >= TWO63 / 4 && 0 < error <= 45
    ensures input.e <= product.e && 0 < error * Pow(2, product.e - input.e) <= 400 &&
            13 * Pow(2, product.e - input.e) <= 52
  {
    hide Pow, IsShifted;
    Pow61();
    ShiftOrder(input, product);
    SmallShift(input, product, 61);
    var p := Pow(2, product.e - input.e);
    ShiftOfTwo(product.e - input.e);
    MulMono(p, 4, error);
    MulMono(1, p, error);
  }

  lemma {:induction false} ShiftOrder(r: DiyFp, a: DiyFp)
    requires IsShifted(r, a)
    ensures r.e <= a.e
  {
  }

  lemma {:induction false} Pow61()
    ensures Pow(2, 61) == TWO63 / 4
  {
    hide Pow;
    TwosTo60();
    PowBasics(2);
    PowAdd(2, 60, 1);
  }

  lemma {:induction false} ShiftOfTwo(shift: nat)
    requires shift <= 2
    ensures 1 <= Pow(2, shift) <= 4
  {
  }

  lemma {:induction false} NearWeaker(x: real, d: DiyFp, error: int, more: int)
    requires Near(x, d, error) && error <= more
    ensures Near(x, d, more)
  {
  }
}
