/** Exact comparison of a decimal string with a binary number, on bignums. */
module StrtodCompare {
  import opened Arith
  import opened RealPowers
  import opened Limbs
  import opened LimbArith
  import opened Powers
  import opened Decimals
  import opened Bignums
  import opened Ieee
  import opened DecimalRounding
  import opened StartValues
  import opened DtoaStart
  import opened StrtodTrim

  const MAX_DECIMAL_POWER := 309
  const MIN_DECIMAL_POWER := -324

  lemma {:induction false} TenBelowSixteen(n: nat)
    ensures Pow(10, n) <= Pow(2, 4 * n)
    ensures Pow(5, n) <= Pow(2, 3 * n)
  {
    if n > 0 {
      TenBelowSixteen(n - 1);
      PowAdd(2, 4, 4 * (n - 1));
      PowAdd(2, 3, 3 * (n - 1));
      assert Pow(2, 3) == 8 && Pow(2, 4) == 16;
    }
  }

  /** Any buffer the comparison accepts, and any significand times the powers of ten it may need, fits. */
  lemma {:induction false} Capacities(limbs: nat)
    requires limbs == 126
    ensures Pow(10, 780) <= BPow(limbs)
    ensures 0x1_0000_0000_0000_0000 * Pow(5, 1104) <= BPow(limbs)
  {
    hide Pow, BPow;
    Pow2Limbs(limbs);
    TenBelowSixteen(780);
    PowMono(2, 3120, 3528);
    TenBelowSixteen(1104);
    PowAdd(2, 64, 3312);
    PowMono(2, 3376, 3528);
    Pow2Word(64);
    MulMono(Pow(5, 1104), Pow(2, 3312), Pow(2, 64));
  }

  lemma {:induction false} BufferRoom(v: nat, mantissa: nat, digits: nat, power: nat)
    requires mantissa <= v < Pow(10, digits) && digits + power <= 780
    ensures Pow(5, power) * mantissa < Pow(10, 780)
  {
    hide Pow;
    PowAdd(10, digits, power);
    PowMono(10, digits + power, 780);
    MulStrict(v, Pow(10, digits), Pow(10, power));
    ScaledMantissa(mantissa, v, power, Pow(10, 780));
  }

  lemma {:induction false} FactorRoom(f: nat, mantissa: nat, power: nat)
    requires mantissa <= f < 0x1_0000_0000_0000_0000 && power <= 1104
    ensures Pow(5, power) * mantissa < 0x1_0000_0000_0000_0000 * Pow(5, 1104)
  {
    hide Pow;
    PowMono(5, power, 1104);
    MulMono(mantissa, f, Pow(5, power));
    MulMono(Pow(5, power), Pow(5, 1104), f);
    MulStrict(f, 0x1_0000_0000_0000_0000, Pow(5, 1104));
  }

  /** buffer * 10^max(exponent, 0) */
  method BufferBignum(buffer: seq<char>, exponent: int, x: Bignum)
    requires AllDigits(buffer) && |buffer| <= MAX_SIGNIFICANT_DECIMAL_DIGITS
    requires |buffer| + exponent <= MAX_DECIMAL_POWER + 1 && x.Valid()
    modifies x, x.bigits
    ensures x.Valid() && x.used < CAPACITY && x.Value() == DecimalValue(buffer) * PowIf(10, exponent)
  {
    hide BPow, Pow, DecimalValue, Bignum.Value;
    ghost var limbs := x.bigits.Length - 2;
    Capacities(limbs);
    PowMono(10, |buffer|, 780);
    x.AssignDecimalString(buffer);
    DecimalBound(buffer);
    x.MantissaBelowValue();
    ghost var power: nat := if exponent >= 0 then exponent else 0;
    BufferRoom(x.Value(), x.Mantissa(), |buffer|, power);
    if exponent >= 0 {
      x.MultiplyByPowerOfTen(exponent, limbs);
    } else {
      PowBasics(5);
      x.MantissaFits(limbs);
    }
  }

  /** f * 10^max(-exponent, 0) */
  method FactorBignum(f: uint64, exponent: int, x: Bignum)
    requires -1104 <= exponent && x.Valid()
    modifies x, x.bigits
    ensures x.Valid() && x.used < CAPACITY && x.Value() == f as int * PowIf(10, -exponent)
  {
    hide BPow, Pow, Bignum.Value;
    ghost var limbs := x.bigits.Length - 2;
    Capacities(limbs);
    x.AssignUInt64(f);
    x.MantissaBelowValue();
    if exponent < 0 {
      FactorRoom(f as int, x.Mantissa(), -exponent);
      x.MultiplyByPowerOfTen(-exponent, limbs);
    } else {
      PowBasics(10);
    }
  }

  /** -1, 0 or 1 as buffer * 10^exponent is below, equal to or above diyFp. */
  method CompareBufferWithDiyFp(buffer: seq<char>, exponent: int, diyFp: DiyFp) returns (r: int)
    requires AllDigits(buffer) && |buffer| <= MAX_SIGNIFICANT_DECIMAL_DIGITS
    requires MIN_DECIMAL_POWER < |buffer| + exponent <= MAX_DECIMAL_POWER + 1
    ensures r == if Decimal(DecimalValue(buffer), exponent) < diyFp.Value() then -1
                 else if Decimal(DecimalValue(buffer), exponent) == diyFp.Value() then 0 else 1
  {
    hide BPow, Pow, PowIf, Exp, DecimalValue, Bignum.Valid, Bignum.Value, Decimal, DiyFp.Value;
    var bufferBignum := new Bignum();
    var diyFpBignum := new Bignum();
    BufferBignum(buffer, exponent, bufferBignum);
    FactorBignum(diyFp.f, exponent, diyFpBignum);
    ghost var c, f := DecimalValue(buffer), diyFp.f as int;
    TwoFactor(diyFp.e);
    if diyFp.e > 0 {
      diyFpBignum.ShiftLeft(diyFp.e);
    } else {
      bufferBignum.ShiftLeft(-diyFp.e);
    }
    ghost var a, b := bufferBignum.Value(), diyFpBignum.Value();
    CompareParts(c, exponent, f, diyFp.e, a, b);
    DiyFpParts(diyFp);
    r := Bignum.Compare(bufferBignum, diyFpBignum);
  }

  lemma {:induction false} DiyFpParts(d: DiyFp)
    ensures d.Value() == d.f as int as real * Exp(2, d.e)
  {
  }

  lemma {:induction false} TwoFactor(e: int)
    ensures e > 0 ==> PowIf(2, e) == Pow(2, e) && PowIf(2, -e) == 1
    ensures e <= 0 ==> PowIf(2, -e) == Pow(2, -e) && PowIf(2, e) == 1
  {
    if e == 0 { PowBasics(2); }
  }

  /** Both sides have been multiplied by the same positive number. */
  lemma {:induction false} CompareParts(c: nat, exponent: int, f: nat, e: int, a: nat, b: nat)
    requires a == c * PowIf(10, exponent) * PowIf(2, -e)
    requires b == f * PowIf(10, -exponent) * PowIf(2, e)
    ensures a < b <==> Decimal(c, exponent) < f as real * Exp(2, e)
    ensures a == b <==> Decimal(c, exponent) == f as real * Exp(2, e)
  {
    hide Exp, Pow, PowIf;
    PowIfRatio(10, -exponent);
    PowIfRatio(2, -e);
    ScaledBuffer(c, exponent, PowIf(2, -e), a);
    ScaledFactor(f, e, PowIf(10, -exponent), b);
    var t, u := PowIf(10, -exponent) as real, PowIf(2, -e) as real;
    RealPositive(t, u);
    ScaleOrder(Decimal(c, exponent), f as real * Exp(2, e), t * u);
  }

  lemma {:induction false} ScaledBuffer(c: nat, exponent: int, u: nat, a: nat)
    requires a == c * PowIf(10, exponent) * u
    ensures a as real == Decimal(c, exponent) * (PowIf(10, -exponent) as real * u as real)
  {
    hide Exp, Pow, PowIf;
    PowIfRatio(10, exponent);
    CastTriple(c, PowIf(10, exponent), u);
    CommonFactor(c as real, PowIf(10, -exponent) as real, u as real, Exp(10, exponent));
  }

  lemma {:induction false} ScaledFactor(f: nat, e: int, t: nat, b: nat)
    requires b == f * t * PowIf(2, e)
    ensures b as real == (f as real * Exp(2, e)) * (t as real * PowIf(2, -e) as real)
  {
    hide Exp, Pow, PowIf;
    PowIfRatio(2, e);
    CastTriple(f, t, PowIf(2, e));
    FactorLast(f as real, t as real, PowIf(2, -e) as real, Exp(2, e));
  }

  lemma {:induction false} FactorLast(f: real, t: real, u: real, x: real)
    ensures (f * t) * (u * x) == (f * x) * (t * u)
  {
  }

  lemma {:induction false} CastTriple(a: int, b: int, c: int)
    ensures (a * b * c) as real == (a as real * b as real) * c as real
  {
    CastProduct(a * b, c);
    CastProduct(a, b);
  }

  lemma {:induction false} CommonFactor(c: real, t: real, u: real, x: real)
    ensures (c * (t * x)) * u == (c * x) * (t * u)
  {
  }
}
