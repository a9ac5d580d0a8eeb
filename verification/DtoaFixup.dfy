/** From the power estimate to a fraction in the first decade, and the bounds that keep everything in capacity. */
module DtoaFixup {
  import opened Arith
  import opened RealPowers
  import opened Limbs
  import opened LimbArith
  import opened Ieee
  import opened Shortest
  import opened DecimalRounding
  import opened StartValues
  import opened DtoaStart

  /** The fraction and the deltas times ten, unless the upper boundary already is in the first decade. */
  function FixedUp(s: Scaled): Scaled {
    if RoomPlus(s.even, s.num, s.plus, s.den) then s
    else Scaled(10 * s.num, s.den, 10 * s.minus, 10 * s.plus, s.even)
  }

  function PointOf(s: Scaled, estimatedPower: int): int {
    if RoomPlus(s.even, s.num, s.plus, s.den) then estimatedPower + 1 else estimatedPower
  }

  /** The boundaries are apart from the number, and positive. */
  lemma {:induction false} DeltasPositive(s: Scaled, w: Double, point: int)
    requires Represents(s, w, point)
    ensures s.plus > 0 && 0 < s.minus < s.num
  {
    hide Exp, Double.Value, DiyFp.Value, Double.UpperBoundary;
    BoundaryIsMidpoint(w);
    BoundaryIsMidpoint(Double(w.d64 - 1));
    var t, d := Exp(10, point - 1), s.den as real;
    Separated(s.num, s.num + s.plus, t, d, w.Value(), w.UpperBoundary().Value());
    Separated(s.num - s.minus, s.num, t, d, LowerBoundary(w), w.Value());
    Separated(0, s.num - s.minus, t, d, 0.0, LowerBoundary(w));
  }

  lemma {:induction false} Separated(a: int, b: int, t: real, d: real, x: real, y: real)
    requires t > 0.0 && d > 0.0 && a as real * t == d * x && b as real * t == d * y
    ensures a < b <==> x < y
    ensures a <= b <==> x <= y
  {
    ScaleOrder(a as real, b as real, t);
    ScaleOrder(x, y, d);
    ScaleOrder(b as real, a as real, t);
    ScaleOrder(y, x, d);
  }

  /** The estimate puts the number between a tenth and ten. */
  lemma {:induction false} EstimateRange(num: nat, den: nat, above: nat, w: Double, estimatedPower: int)
    requires EstimateContract(w, estimatedPower) && den > 0
    requires num as real * Exp(10, estimatedPower) == den as real * w.Value()
    requires above as real * Exp(10, estimatedPower) == den as real * w.UpperBoundary().Value()
    ensures den <= 10 * num && above < 10 * den
  {
    hide Exp, Double.Value, DiyFp.Value, Double.UpperBoundary;
    ExpStep(10, estimatedPower - 1);
    ExpStep(10, estimatedPower);
    var t, d := Exp(10, estimatedPower), den as real;
    TenTimesReal(den, t, Exp(10, estimatedPower - 1), Exp(10, estimatedPower + 1));
    TenTimesReal(num, t, Exp(10, estimatedPower - 1), Exp(10, estimatedPower + 1));
    Separated(den, 10 * num, Exp(10, estimatedPower - 1), d, Exp(10, estimatedPower - 1), w.Value());
    Separated(above, 10 * den, t, d, w.UpperBoundary().Value(), Exp(10, estimatedPower + 1));
  }

  lemma {:induction false} TenTimesReal(x: nat, t: real, below: real, above: real)
    requires t == 10.0 * below && above == 10.0 * t
    ensures (10 * x) as real * below == x as real * t
    ensures (10 * x) as real * t == x as real * above
  {
  }

  /** After the fix-up the digit generation can start, and the fraction still stands for the number. */
  lemma {:induction false} FixupReady(s: Scaled, w: Double, estimatedPower: int)
    requires Represents(s, w, estimatedPower + 1) && EstimateContract(w, estimatedPower)
    ensures Ready(FixedUp(s)) && Represents(FixedUp(s), w, PointOf(s, estimatedPower))
  {
    hide Exp, Double.Value, DiyFp.Value, Double.UpperBoundary, LowerBoundary;
    DeltasPositive(s, w, estimatedPower + 1);
    EstimateRange(s.num, s.den, s.num + s.plus, w, estimatedPower);
    if !RoomPlus(s.even, s.num, s.plus, s.den) {
      TenfoldRepresents(s, w, estimatedPower);
    }
  }

  lemma {:induction false} TenfoldRepresents(s: Scaled, w: Double, point: int)
    requires Represents(s, w, point + 1)
    ensures Represents(Scaled(10 * s.num, s.den, 10 * s.minus, 10 * s.plus, s.even), w, point)
  {
    hide Exp, Double.Value, DiyFp.Value, Double.UpperBoundary, LowerBoundary;
    ExpStep(10, point - 1);
    Tenfold(s.num, Exp(10, point - 1));
    Tenfold(s.num - s.minus, Exp(10, point - 1));
    Tenfold(s.num + s.plus, Exp(10, point - 1));
  }

  lemma {:induction false} Tenfold(x: int, t: real)
    ensures (10 * x) as real * t == x as real * (10.0 * t)
  {
  }

  /** Seventeen digits are always enough: the interval is wider than one unit of the seventeenth. */
  lemma {:induction false} SeventeenDigits(w: Double, estimatedPower: int, s: Scaled)
    requires 0 < w.d64 && w.Finite() && s == FixedUp(StartOf(w, estimatedPower)) && Ready(s)
    ensures Pow(10, 16) * (s.minus + s.plus) > s.den
  {
    hide Pow, PowIf, Double.Exponent, Double.Significand, Double.LowerBoundaryIsCloser;
    SignificandBound(w);
    Ten16();
    var unit := PowIf(2, w.Exponent()) * PowIf(10, -estimatedPower);
    WideInterval(w.Significand() as int, if w.LowerBoundaryIsCloser() then 2 else 1, unit, Pow(10, 16));
  }

  lemma {:induction false} SignificandBound(w: Double)
    ensures w.Significand() as int < 0x20_0000_0000_0000
    ensures w.LowerBoundaryIsCloser() ==> w.Significand() as int == 0x10_0000_0000_0000
  {
  }

  lemma {:induction false} Ten16()
    ensures Pow(10, 16) == 1_0000_0000_0000_0000
  {
    assert Pow(10, 4) == 1_0000;
    PowAdd(10, 4, 4);
    PowAdd(10, 8, 8);
  }

  lemma {:induction false} WideInterval(f: nat, k: nat, unit: nat, t: nat)
    requires f < 0x20_0000_0000_0000 && t == 1_0000_0000_0000_0000
    requires k == 1 || (k == 2 && f == 0x10_0000_0000_0000)
    ensures unit > 0 ==> f * unit * (2 * k) + unit * k < t * (unit + unit * k)
    ensures unit > 0 ==> 10 * (f * unit * (2 * k)) + 10 * (unit * k) < t * (10 * unit + 10 * (unit * k))
  {
    if k == 1 {
      MulMono(f, 0x1F_FFFF_FFFF_FFFF, unit);
    }
  }

  /** 10^k < 2^m bounds k. */
  lemma {:induction false} TenBelowTwo(k: int, m: nat)
    requires Exp(10, k) < Exp(2, m)
    ensures 2 * k <= m
  {
    hide Exp, Pow;
    if 2 * k > m {
      ExpNat(10, k);
      ExpNat(2, m);
      FourToTen(k);
      PowMono(2, m, 2 * k);
    }
  }

  lemma {:induction false} FourToTen(k: nat)
    ensures Pow(2, 2 * k) <= Pow(10, k)
  {
    if k > 0 {
      FourToTen(k - 1);
      assert Pow(2, 2 * k) == 2 * (2 * Pow(2, 2 * k - 2));
    }
  }

  /** Finite numbers lie below 2^1024. */
  lemma {:induction false} BelowInfinity(w: Double)
    requires w.Finite()
    ensures w.Value() < Exp(2, 1024)
  {
    hide Exp, Pow, Double.Value;
    var top := Double(INFINITY);
    ValueMono(w, top);
    InfinityValue(top);
  }

  lemma {:induction false} InfinityValue(top: Double)
    requires top.d64 == INFINITY
    ensures top.Value() == Exp(2, 1024)
  {
    hide Exp, Pow;
    ExpNat(2, 52);
    TwoTo52();
    ExpAdd(2, 52, 972);
  }

  lemma {:induction false} TwoTo52()
    ensures Pow(2, 52) == 0x10_0000_0000_0000
  {
    assert Pow(2, 13) == 0x2000;
    PowAdd(2, 13, 13);
    PowAdd(2, 26, 26);
  }

  /** Every upper boundary is at least half the smallest denormal. */
  lemma {:induction false} AboveZero(w: Double)
    requires w.Finite()
    ensures Exp(2, -1075) <= w.UpperBoundary().Value()
  {
    hide Exp, Pow, Double.Value, Double.UpperBoundary, DiyFp.Value, Double.Exponent;
    BoundaryIsMidpoint(w);
    LeastExponent(w);
    if w.Exponent() - 1 > -1075 { ExpMono(2, -1075, w.Exponent() - 1); }
  }

  lemma {:induction false} LeastExponent(w: Double)
    ensures w.Exponent() >= DENORMAL_EXPONENT
  {
  }

  lemma {:induction false} AtLeastUnit(n: int, unit: real)
    requires n >= 1 && unit > 0.0
    ensures unit <= n as real * unit
  {
    if n > 1 { ScaleOrder(1.0, n as real, unit); }
  }

  lemma {:induction false} PowerBounds(w: Double, estimatedPower: int)
    requires 0 < w.d64 && w.Finite() && EstimateContract(w, estimatedPower)
    ensures -600 <= estimatedPower <= 600
    ensures w.Exponent() >= 0 ==> estimatedPower >= 0
  {
    hide Exp, Pow, Double.Value, DiyFp.Value, Double.UpperBoundary;
    BelowInfinity(w);
    TenBelowTwo(estimatedPower - 1, 1024);
    AboveZero(w);
    InverseOrder(estimatedPower + 1, -1075);
    TenBelowTwo(-(estimatedPower + 1), 1075);
    if w.Exponent() >= 0 {
      NormalAboveOne(w);
      BoundaryIsMidpoint(w);
      ExpZero(10);
      if estimatedPower + 1 < 0 { ExpMono(10, estimatedPower + 1, 0); }
    }
  }

  lemma {:induction false} InverseOrder(a: int, b: int)
    requires Exp(2, b) < Exp(10, a)
    ensures Exp(10, -a) < Exp(2, -b)
  {
    hide Exp, Pow;
    ExpNeg(2, b);
    ExpNeg(10, a);
    InverseReal(Exp(2, b), Exp(2, -b), Exp(10, a), Exp(10, -a));
  }

  lemma {:induction false} InverseReal(x: real, x': real, y: real, y': real)
    requires 0.0 < x < y && x' > 0.0 && y' > 0.0 && x * x' == 1.0 && y * y' == 1.0
    ensures y' < x'
  {
    ScaleOrder(x, y, y');
    ScaleOrder(y', x', x);
  }

  lemma {:induction false} NormalAboveOne(w: Double)
    requires w.Exponent() >= 0
    ensures 1.0 <= w.Value()
  {
    hide Exp, Pow;
    assert w.Significand() as int >= 1;
    ExpZero(2);
    if w.Exponent() > 0 { ExpMono(2, 0, w.Exponent()); }
    AtLeastUnit(w.Significand() as int, Exp(2, w.Exponent()));
  }

  /** The start values need at most `limbs` limbs, with two to spare for factors of ten. */
  lemma {:induction false} StartValuesFit(w: Double, estimatedPower: int) returns (limbs: nat)
    requires 0 < w.d64 && w.Finite() && EstimateContract(w, estimatedPower)
    ensures limbs + 2 <= CAPACITY
    ensures StartFits(w.Significand() as int, w.Exponent(), estimatedPower, limbs)
  {
    hide Exp, Pow, PowIf, BPow, Double.Value, DiyFp.Value, Double.UpperBoundary, Double.Significand, Double.Exponent,
         StartFits, EstimateContract;
    limbs := 40;
    PowerBounds(w, estimatedPower);
    NumberRatio(w, estimatedPower);
    SmallSide(w, estimatedPower);
    BoundInLimbs(limbs);
    FitsIn(w.Significand() as int, w.Exponent(), estimatedPower, limbs, Pow(2, 1074));
  }

  lemma {:induction false} FitsIn(f: nat, e: int, estimatedPower: int, limbs: nat, p: nat)
    requires limbs < CAPACITY && -1000 <= estimatedPower <= 1000 && 64 * p < BPow(limbs)
    requires var unit, base := PowIf(2, e) * PowIf(10, -estimatedPower), PowIf(10, estimatedPower) * PowIf(2, -e);
             base <= 10 * (f * unit) && f * unit <= 10 * base && (f * unit <= p || base <= p)
    ensures StartFits(f, e, estimatedPower, limbs)
  {
    hide BPow, PowIf, StartFits;
    FourTimes(f * (PowIf(2, e) * PowIf(10, -estimatedPower)), PowIf(10, estimatedPower) * PowIf(2, -e), p, BPow(limbs));
    FitsByDefinition(f, e, estimatedPower, limbs);
  }

  lemma {:induction false} FourTimes(n: nat, d: nat, p: nat, bound: nat)
    requires d <= 10 * n && n <= 10 * d && (n <= p || d <= p) && 64 * p < bound
    ensures 4 * n < bound && 4 * d < bound
  {
  }

  lemma {:induction false} FitsByDefinition(f: nat, e: int, estimatedPower: int, limbs: nat)
    requires limbs < CAPACITY && -1000 <= estimatedPower <= 1000
    requires 4 * (f * (PowIf(2, e) * PowIf(10, -estimatedPower))) < BPow(limbs)
    requires 4 * (PowIf(10, estimatedPower) * PowIf(2, -e)) < BPow(limbs)
    ensures StartFits(f, e, estimatedPower, limbs)
  {
    hide BPow, PowIf;
  }

  /** A tenth and ten bound the fraction, as integers. */
  lemma {:induction false} NumberRatio(w: Double, estimatedPower: int)
    requires 0 < w.d64 && w.Finite() && EstimateContract(w, estimatedPower)
    ensures var f, e := w.Significand() as int, w.Exponent();
            var unit, base := PowIf(2, e) * PowIf(10, -estimatedPower), PowIf(10, estimatedPower) * PowIf(2, -e);
            base <= 10 * (f * unit) && f * unit <= 10 * base
  {
    hide Exp, Pow, PowIf, DiyFp.Value, Double.UpperBoundary, Double.Significand, Double.Exponent;
    var f, e := w.Significand() as int, w.Exponent();
    var unit, base := PowIf(2, e) * PowIf(10, -estimatedPower), PowIf(10, estimatedPower) * PowIf(2, -e);
    UnitRatio(e, estimatedPower);
    BoundaryIsMidpoint(w);
    ScaledUnit(f, unit, base, Exp(10, estimatedPower), Exp(2, e));
    ExpStep(10, estimatedPower - 1);
    ExpStep(10, estimatedPower);
    var t, d := Exp(10, estimatedPower), base as real;
    TenTimesReal(base, t, Exp(10, estimatedPower - 1), Exp(10, estimatedPower + 1));
    TenTimesReal(f * unit, t, Exp(10, estimatedPower - 1), Exp(10, estimatedPower + 1));
    Separated(base, 10 * (f * unit), Exp(10, estimatedPower - 1), d, Exp(10, estimatedPower - 1), w.Value());
    Separated(f * unit, 10 * base, t, d, w.Value(), Exp(10, estimatedPower + 1));
  }

  /** One of the two numbers is small in every case of the exponent and the power. */
  lemma {:induction false} SmallSide(w: Double, estimatedPower: int)
    requires 0 < w.d64 && w.Finite() && (w.Exponent() >= 0 ==> estimatedPower >= 0)
    ensures var f, e := w.Significand() as int, w.Exponent();
            var unit, base := PowIf(2, e) * PowIf(10, -estimatedPower), PowIf(10, estimatedPower) * PowIf(2, -e);
            f * unit <= Pow(2, 1074) || base <= Pow(2, 1074)
  {
    hide Pow, Exp;
    var f, e := w.Significand() as int, w.Exponent();
    PowZero(10);
    PowZero(2);
    if e >= 0 {
      BelowInfinity(w);
      ExpNat(2, e);
      ExpNat(2, 1024);
      CastProduct(f, Pow(2, e));
      PowMono(2, 1024, 1074);
    } else if estimatedPower >= 0 {
      TwoTo52();
      PowAdd(2, 52, 1);
      PowOne(2);
      PowMono(2, 53, 1074);
    } else {
      PowMono(2, -e, 1074);
    }
  }

  lemma {:induction false} PowZero(b: nat)
    ensures Pow(b, 0) == 1
  {
  }

  lemma {:induction false} PowOne(b: nat)
    ensures Pow(b, 1) == b
  {
    PowZero(b);
  }

  lemma {:induction false} BoundInLimbs(limbs: nat)
    requires limbs == 40
    ensures 64 * Pow(2, 1074) < BPow(limbs)
  {
    hide BPow, Pow;
    Pow2Limbs(limbs);
    assert Pow(2, 6) == 64 by { SixTwos(); }
    PowAdd(2, 6, 1074);
    PowStrict(2, 1080, 28 * limbs);
  }

  lemma {:induction false} SixTwos()
    ensures Pow(2, 6) == 64
  {
  }
}
