/** The start values represent the double and its boundaries; the power estimate makes them ready. */
module DtoaStart {
  import opened Arith
  import opened RealPowers
  import opened Ieee
  import opened Shortest
  import opened DecimalRounding
  import opened StartValues

  /** What the power estimate promises: w is at least 10^(k-1), its upper boundary below 10^(k+1). */
  ghost predicate EstimateContract(w: Double, estimatedPower: int) {
    && Exp(10, estimatedPower - 1) <= w.Value()
    && w.UpperBoundary().Value() < Exp(10, estimatedPower + 1)
  }

  function StartOf(w: Double, estimatedPower: int): Scaled {
    StartScaled(w.Significand() as int, w.Exponent(), w.LowerBoundaryIsCloser(), estimatedPower, w.IsEven())
  }

  /** The lower boundary is half a unit below, a quarter where the unit changes. */
  lemma {:induction false} LowerDistance(w: Double)
    requires 0 < w.d64 && w.Ordered()
    ensures LowerBoundary(w) == w.Value() - Exp(2, w.Exponent() - if w.LowerBoundaryIsCloser() then 2 else 1)
    ensures w.Significand() > 0
  {
    hide Exp, Pow, Double.Value, DiyFp.Value, Double.UpperBoundary;
    var p := Double(w.d64 - 1);
    SuccessorValue(p);
    BoundaryIsMidpoint(p);
    PredecessorUnit(w);
    ExpStep(2, p.Exponent() - 1);
    HalfOfUnit(Exp(2, p.Exponent()), Exp(2, p.Exponent() - 1));
  }

  lemma {:induction false} HalfOfUnit(unit: real, half: real)
    requires unit == 2.0 * half
    ensures unit - half == half
  {
  }

  lemma {:induction false} PredecessorUnit(w: Double)
    requires 0 < w.d64 && w.Ordered()
    ensures Double(w.d64 - 1).Exponent() == if w.LowerBoundaryIsCloser() then w.Exponent() - 1 else w.Exponent()
    ensures w.Significand() > 0
  {
    var p := Double(w.d64 - 1);
    SuccessorFields(p);
  }

  /** unit = PowIf(b, e) turns into a power with the sign of the exponent. */
  lemma {:induction false} PowIfRatio(b: nat, e: int)
    requires b > 0
    ensures PowIf(b, e) as real == PowIf(b, -e) as real * Exp(b, e)
    ensures PowIf(b, e) > 0
  {
    if e < 0 {
      ExpNeg(b, e);
      ExpNat(b, -e);
    } else {
      ExpNat(b, e);
    }
  }

  /** unit * 10^ep == base * 2^e, where unit and base are the integer parts of numerator and denominator. */
  lemma {:induction false} UnitRatio(e: int, estimatedPower: int)
    ensures (PowIf(2, e) * PowIf(10, -estimatedPower)) as real * Exp(10, estimatedPower)
         == (PowIf(10, estimatedPower) * PowIf(2, -e)) as real * Exp(2, e)
    ensures PowIf(10, estimatedPower) * PowIf(2, -e) > 0 && PowIf(2, e) * PowIf(10, -estimatedPower) > 0
  {
    hide Exp, Pow, PowIf;
    PowIfRatio(2, e);
    PowIfRatio(2, -e);
    PowIfRatio(10, estimatedPower);
    PowIfRatio(10, -estimatedPower);
    var u, tn, td, dn := PowIf(2, e), PowIf(10, -estimatedPower), PowIf(10, estimatedPower), PowIf(2, -e);
    CastProduct(u, tn);
    CastProduct(td, dn);
    MulMono(1, td, dn);
    MulMono(1, u, tn);
    CrossRatio(u as real, tn as real, td as real, dn as real, Exp(2, e), Exp(10, estimatedPower));
  }

  lemma {:induction false} CrossRatio(u: real, tn: real, td: real, dn: real, e: real, t: real)
    requires u == dn * e && td == tn * t
    ensures (u * tn) * t == (td * dn) * e
  {
    calc {
      (u * tn) * t;
      u * (tn * t);
      (dn * e) * td;
      (td * dn) * e;
    }
  }

  /** n * unit over n' * base stands for (n / n') * 2^e / 10^ep. */
  lemma {:induction false} ScaledUnit(n: int, unit: nat, base: nat, t: real, e: real)
    requires unit as real * t == base as real * e
    ensures (n * unit) as real * t == base as real * (n as real * e)
  {
    CastProduct(n, unit);
    assert (n as real * unit as real) * t == n as real * (unit as real * t);
    assert n as real * (base as real * e) == base as real * (n as real * e);
  }

  lemma {:induction false} ScaledBase(base: nat, m: nat, x: real)
    ensures (base * m) as real * x == base as real * (m as real * x)
  {
    CastProduct(base, m);
  }

  lemma {:induction false} StartFields(w: Double, estimatedPower: int, f: int, k: int, unit: nat, base: nat)
    requires f == w.Significand() as int && k == (if w.LowerBoundaryIsCloser() then 2 else 1)
    requires unit == PowIf(2, w.Exponent()) * PowIf(10, -estimatedPower) &&
             base == PowIf(10, estimatedPower) * PowIf(2, -w.Exponent())
    ensures var s := StartOf(w, estimatedPower);
            s.num == f * unit * (2 * k) && s.den == base * (2 * k) && s.minus == unit && s.plus == unit * k &&
                s.even == w.IsEven()
  {
    hide PowIf, Double.Exponent, Double.Significand, Double.LowerBoundaryIsCloser, Double.IsEven;
  }

  lemma {:induction false} StartRepresents(w: Double, estimatedPower: int)
    requires 0 < w.d64 && w.Finite()
    ensures Represents(StartOf(w, estimatedPower), w, estimatedPower + 1)
  {
    hide Exp, Pow, PowIf, DiyFp.Value, Double.Value, Double.UpperBoundary, Double.Exponent, Double.Significand,
         LowerBoundary, Double.LowerBoundaryIsCloser,
         StartOf, Double.IsEven;
    var e, f := w.Exponent(), w.Significand() as int;
    var k := if w.LowerBoundaryIsCloser() then 2 else 1;
    var unit, base := PowIf(2, e) * PowIf(10, -estimatedPower), PowIf(10, estimatedPower) * PowIf(2, -e);
    UnitRatio(e, estimatedPower);
    LowerDistance(w);
    BoundaryIsMidpoint(w);
    ExpStep(2, e - 1);
    ExpStep(2, e - 2);
    ValueOf(w);
    RepresentParts(f, k, unit, base, Exp(10, estimatedPower), Exp(2, e), w.Value(), Exp(2, e - 1), Exp(2, e - 2));
    StartFields(w, estimatedPower, f, k, unit, base);
  }

  lemma {:induction false} ValueOf(w: Double)
    ensures w.Value() == (w.Significand() as int) as real * Exp(2, w.Exponent())
  {
    hide Exp, Double.Exponent, Double.Significand;
  }

  lemma {:induction false} RepresentParts(f: nat, k: nat, unit: nat, base: nat, t: real, e: real, v: real, half: real,
                                          quarter: real)
    requires f > 0 && (k == 1 || k == 2) && unit > 0 && base > 0
    requires unit as real * t == base as real * e && v == f as real * e && e == 2.0 * half && half == 2.0 * quarter
    ensures var num, den := f * unit * (2 * k), base * (2 * k);
            && den > 0 && unit <= num
            && num as real * t == den as real * v
            && (num - unit) as real * t == den as real * (v - if k == 2 then quarter else half)
            && (num + unit * k) as real * t == den as real * (v + half)
  {
    RealParts(f, k, e, v, half, quarter);
    Part(f * (2 * k), 2 * k, unit, base, t, e, v);
    Part(f * (2 * k) - 1, 2 * k, unit, base, t, e, v - if k == 2 then quarter else half);
    Part(f * (2 * k) + k, 2 * k, unit, base, t, e, v + half);
    Regroup(f, k, unit, base);
  }

  lemma {:induction false} Regroup(f: nat, k: nat, unit: nat, base: nat)
    requires f > 0 && k > 0 && unit > 0 && base > 0
    ensures f * unit * (2 * k) == (f * (2 * k)) * unit
    ensures f * unit * (2 * k) - unit == (f * (2 * k) - 1) * unit
    ensures f * unit * (2 * k) + unit * k == (f * (2 * k) + k) * unit
    ensures base * (2 * k) > 0 && unit <= f * unit * (2 * k)
  {
    Product3(f, 2 * k, unit);
    SumTimes(f * (2 * k), k, unit);
    Positive3(f, 2 * k, unit);
    Positive3(base, 2 * k, unit);
  }

  lemma {:induction false} Product3(f: nat, m: nat, unit: nat)
    ensures f * unit * m == (f * m) * unit
  {
  }

  lemma {:induction false} SumTimes(g: nat, k: nat, unit: nat)
    ensures (g - 1) * unit == g * unit - unit
    ensures (g + k) * unit == g * unit + unit * k
  {
  }

  lemma {:induction false} Positive3(f: nat, m: nat, unit: nat)
    requires f > 0 && m > 0 && unit > 0
    ensures f * m > 0 && unit <= (f * m) * unit
  {
    MulMono(1, f, m);
    MulMono(1, f * m, unit);
  }

  lemma {:induction false} Part(n: int, m: nat, unit: nat, base: nat, t: real, e: real, y: real)
    requires unit as real * t == base as real * e && n as real * e == m as real * y
    ensures (n * unit) as real * t == (base * m) as real * y
  {
    ScaledUnit(n, unit, base, t, e);
    ScaledBase(base, m, y);
  }

  lemma {:induction false} RealParts(f: nat, k: nat, e: real, v: real, half: real, quarter: real)
    requires (k == 1 || k == 2) && v == f as real * e && e == 2.0 * half && half == 2.0 * quarter
    ensures (f * (2 * k)) as real * e == (2 * k) as real * v
    ensures (f * (2 * k) - 1) as real * e == (2 * k) as real * (v - if k == 2 then quarter else half)
    ensures (f * (2 * k) + k) as real * e == (2 * k) as real * (v + half)
  {
    var x := f as real;
    if k == 1 {
      assert (f * 2) as real == 2.0 * x;
    } else {
      assert (f * 4) as real == 4.0 * x;
    }
  }
}
