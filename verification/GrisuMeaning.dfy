/** What a certain outcome of the fast digit generation says about every number within a unit of its estimate. */
module GrisuMeaning {
  import opened Arith
  import opened RealPowers
  import opened Ieee
  import opened DiyFps
  import opened Shortest
  import opened DecimalRounding
  import opened DigitGeneration

  /** A number at decimal exponent -mk, in units of 2^-s after scaling. */
  ghost function Factor(mk: int, s: nat): (r: real)
    ensures r > 0.0
  {
    RealPositive(Exp(10, mk), Exp(2, s));
    Exp(10, mk) * Exp(2, s)
  }

  ghost function Times(x: real, f: real): real {
    x * f
  }

  ghost predicate Quotient(x: real, unit: int, product: int) {
    x * unit as real == product as real
  }

  lemma {:induction false} TimesOrder(x: real, y: real, f: real)
    requires f > 0.0
    ensures x < y <==> Times(x, f) < Times(y, f)
  {
    ScaleOrder(x, y, f);
  }

  /** A decimal at exponent kappa - mk, scaled, is a multiple of the step. */
  lemma {:induction false} PlaceValue(o: nat, kappa: int, mk: int, s: nat)
    ensures Quotient(Times(Decimal(o, kappa - mk), Factor(mk, s)), UnitOf(kappa), o * StepOf(kappa, Pow(2, s)))
    ensures UnitOf(kappa) > 0 && StepOf(kappa, Pow(2, s)) > 0
  {
    hide Exp, Pow;
    var one := Pow(2, s);
    ExpAdd(10, kappa - mk, mk);
    ExpNat(2, s);
    RealRegroup(o as real, Exp(10, kappa - mk), Exp(10, mk), Exp(2, s));
    if kappa >= 0 {
      ExpNat(10, kappa);
      MulMono(1, Pow(10, kappa), one);
      ThreeFactors(o, Pow(10, kappa), one);
    } else {
      ExpNeg(10, kappa);
      ExpNat(10, -kappa);
      CastProduct(o, one);
      UnitCancels(o as real, Exp(10, kappa), one as real, Pow(10, -kappa) as real);
    }
  }

  lemma {:induction false} ThreeFactors(o: int, p: int, one: int)
    ensures o as real * (p as real * one as real) == (o * (p * one)) as real
  {
    CastProduct(p, one);
    CastProduct(o, p * one);
  }

  lemma {:induction false} UnitCancels(o: real, t: real, one: real, p: real)
    requires t * p == 1.0
    ensures (o * (t * one)) * p == o * one
  {
    assert (o * (t * one)) * p == (o * one) * (t * p);
  }

  /** From products of integers to the scaled number. */
  lemma {:induction false} AtLeast(x: real, unit: int, product: int, a: int)
    requires unit > 0 && Quotient(x, unit, product)
    ensures a * unit <= product <==> a as real <= x
    ensures product <= a * unit <==> x <= a as real
  {
    CastProduct(a, unit);
    ScaleOrder(a as real, x, unit as real);
  }

  /** The estimates are less than a unit off. */
  ghost predicate Estimates(d: DiyFp, x: real, factor: real) {
    -1.0 < Times(x, factor) - d.f as real < 1.0
  }

  /** c * 10^e is strictly between lo and hi, no decimal with a greater exponent lies there, and none with this one is
      as close to x. */
  ghost predicate IsBest(lo: real, x: real, hi: real, c: nat, e: int) {
    && lo < Decimal(c, e) < hi
    && (forall o: nat, j: int :: j > e ==> !(lo <= Decimal(o, j) <= hi))
    && (forall o: nat :: o != c && lo <= Decimal(o, e) <= hi ==>
        Distance(Decimal(c, e), x) < Distance(Decimal(o, e), x))
  }

  /** In the situation of the digit generation. */
  ghost predicate Scaling(low: DiyFp, w: DiyFp, high: DiyFp, c: nat, kappa: int, mk: int, lo: real, x: real, hi: real) {
    && Close(low, w, high) && Outcome(low, w, high, true, c, kappa)
    && Estimates(low, lo, Factor(mk, -w.e)) && Estimates(w, x, Factor(mk, -w.e)) &&
        Estimates(high, hi, Factor(mk, -w.e))
  }

  lemma {:induction false} StrictlyInside(low: DiyFp, w: DiyFp, high: DiyFp, c: nat, kappa: int, mk: int, lo: real,
                                          x: real, hi: real)
    requires Scaling(low, w, high, c, kappa, mk, lo, x, hi)
    ensures lo < Decimal(c, kappa - mk) < hi
  {
    hide Decimal, StepOf, UnitOf, Pow, Factor, Times, Quotient, Candidate;
    var f := Factor(mk, -w.e);
    var d := Decimal(c, kappa - mk);
    var step, unit := StepOf(kappa, Pow(2, -w.e)), UnitOf(kappa);
    PlaceValue(c, kappa, mk, -w.e);
    AtLeast(Times(d, f), unit, c * step, low.f as int + 3);
    AtLeast(Times(d, f), unit, c * step, high.f as int - 1);
    TimesOrder(lo, d, f);
    TimesOrder(d, lo, f);
    TimesOrder(d, hi, f);
    TimesOrder(hi, d, f);
  }

  /** A decimal with a greater exponent is a multiple of ten steps. */
  lemma {:induction false} CoarserIsMultiple(o: nat, e: int, j: int)
    requires j > e
    ensures Decimal(o, j) == Decimal(o * Pow(10, j - e), e) && o * Pow(10, j - e) % 10 == 0
  {
    hide Pow, Exp;
    CoarseDecimal(o, e, j - e);
    TenDivides(o, Pow(10, j - e - 1));
    PowTens(j - e);
  }

  lemma {:induction false} TenDivides(o: int, p: int)
    ensures o * (10 * p) % 10 == 0
  {
    assert o * (10 * p) == 10 * (o * p);
  }

  lemma {:induction false} NoneCoarser(low: DiyFp, w: DiyFp, high: DiyFp, c: nat, kappa: int, mk: int, lo: real,
                                       x: real, hi: real, o: nat, j: int)
    requires Scaling(low, w, high, c, kappa, mk, lo, x, hi) && j > kappa - mk
    ensures !(lo <= Decimal(o, j) <= hi)
  {
    hide Decimal, StepOf, UnitOf, Pow, Factor, Times, Quotient, Sure;
    var f := Factor(mk, -w.e);
    var m := o * Pow(10, j - (kappa - mk));
    var d := Decimal(m, kappa - mk);
    var step, unit := StepOf(kappa, Pow(2, -w.e)), UnitOf(kappa);
    CoarserIsMultiple(o, kappa - mk, j);
    PlaceValue(m, kappa, mk, -w.e);
    assert Outside(low.f as int, high.f as int, m, step, unit);
    AtLeast(Times(d, f), unit, m * step, low.f as int - 1);
    AtLeast(Times(d, f), unit, m * step, high.f as int + 1);
    TimesOrder(lo, d, f);
    TimesOrder(d, lo, f);
    TimesOrder(hi, d, f);
  }

  /** A decimal in the unsafe interval on either side of c is beyond the point half way to every number within a unit of
      w. */
  lemma {:induction false} BeyondMiddle(l: int, w: int, h: int, c: int, o: int, step: int, unit: int)
    requires Candidate(l, w, h, c, step, unit) && Sure(l, w, h, c, step, unit) && step > 0 && o != c
    requires (l - 1) * unit <= o * step <= (h + 1) * unit
    ensures o > c ==> c * step + o * step >= (2 * (w + 1)) * unit && c * step < o * step
    ensures o < c ==> c * step + o * step <= (2 * (w - 1)) * unit && o * step < c * step
  {
    hide Outside;
    StepsApart(c, o, step);
    Products(l, w, h, c, step, unit);
    TwiceOf(w + 1, unit);
    TwiceOf(w - 1, unit);
  }

  /** Another decimal with the same exponent is outside, or on the far side of a point half way to it. */
  lemma {:induction false} OtherIsFarther(low: DiyFp, w: DiyFp, high: DiyFp, c: nat, kappa: int, mk: int, lo: real,
                                          x: real, hi: real, o: nat)
    requires Scaling(low, w, high, c, kappa, mk, lo, x, hi) && o != c && lo <= Decimal(o, kappa - mk) <= hi
    ensures Distance(Decimal(c, kappa - mk), x) < Distance(Decimal(o, kappa - mk), x)
  {
    hide Decimal, StepOf, UnitOf, Pow, Factor, Times, Quotient, Distance, Candidate, Sure;
    var f := Factor(mk, -w.e);
    var dc, d := Decimal(c, kappa - mk), Decimal(o, kappa - mk);
    var step, unit := StepOf(kappa, Pow(2, -w.e)), UnitOf(kappa);
    PlaceValue(c, kappa, mk, -w.e);
    PlaceValue(o, kappa, mk, -w.e);
    TimesOrder(d, lo, f);
    TimesOrder(hi, d, f);
    AtLeast(Times(d, f), unit, o * step, low.f as int - 1);
    AtLeast(Times(d, f), unit, o * step, high.f as int + 1);
    BeyondMiddle(low.f as int, w.f as int, high.f as int, c, o, step, unit);
    NearerInUnits(Times(dc, f), Times(d, f), Times(x, f), unit, c * step, o * step, w.f as int);
    SameDistances(dc, d, x, f);
  }

  lemma {:induction false} NearerInUnits(x: real, y: real, v: real, unit: int, p: int, q: int, w: int)
    requires unit > 0 && Quotient(x, unit, p) && Quotient(y, unit, q) && -1.0 < v - w as real < 1.0
    requires (p < q && p + q >= (2 * (w + 1)) * unit) || (q < p && p + q <= (2 * (w - 1)) * unit)
    ensures Distance(x, v) < Distance(y, v)
  {
    hide Quotient, Distance;
    Sum(x, y, unit, p, q);
    Order(p, q, x, y, unit);
    Order(q, p, y, x, unit);
    AtLeast(x + y, unit, p + q, 2 * (w + 1));
    AtLeast(x + y, unit, p + q, 2 * (w - 1));
    Nearer(x, y, v);
  }

  lemma {:induction false} TwiceOf(a: int, unit: int)
    ensures (2 * a) * unit == 2 * (a * unit)
  {
  }

  lemma {:induction false} StepsApart(c: int, o: int, step: int)
    requires step > 0
    ensures o > c ==> o * step >= c * step + step
    ensures o < c ==> o * step <= c * step - step
  {
    if o > c { MulMono(c + 1, o, step); }
    if o < c { MulMono(o, c - 1, step); }
  }

  lemma {:induction false} Sum(x: real, y: real, unit: int, p: int, q: int)
    requires Quotient(x, unit, p) && Quotient(y, unit, q)
    ensures Quotient(x + y, unit, p + q)
  {
  }

  lemma {:induction false} Order(p: int, q: int, x: real, y: real, unit: int)
    requires unit > 0 && Quotient(x, unit, p) && Quotient(y, unit, q)
    ensures p < q <==> x < y
  {
    ScaleOrder(x, y, unit as real);
  }

  lemma {:induction false} Nearer(x: real, y: real, v: real)
    requires (x < y && 2.0 * v < x + y) || (y < x && x + y < 2.0 * v)
    ensures Distance(x, v) < Distance(y, v)
  {
  }

  lemma {:induction false} SameDistances(c: real, d: real, x: real, f: real)
    requires f > 0.0 && Distance(Times(c, f), Times(x, f)) < Distance(Times(d, f), Times(x, f))
    ensures Distance(c, x) < Distance(d, x)
  {
    hide Times, Distance;
    ScaledDistance(c, x, f);
    ScaledDistance(d, x, f);
    TimesOrder(Distance(c, x), Distance(d, x), f);
  }

  lemma {:induction false} ScaledDistance(c: real, x: real, f: real)
    requires f > 0.0
    ensures Distance(Times(c, f), Times(x, f)) == Times(Distance(c, x), f)
  {
    ScaleOrder(c, x, f);
    assert (c - x) * f == c * f - x * f && (x - c) * f == x * f - c * f;
  }

  /** A certain outcome is best for all numbers that the arguments may stand for. */
  lemma {:induction false} CertainIsBest(low: DiyFp, w: DiyFp, high: DiyFp, c: nat, kappa: int, mk: int, lo: real,
                                         x: real, hi: real)
    requires Scaling(low, w, high, c, kappa, mk, lo, x, hi)
    ensures IsBest(lo, x, hi, c, kappa - mk)
  {
    hide Decimal, Scaling, Distance;
    StrictlyInside(low, w, high, c, kappa, mk, lo, x, hi);
    forall o: nat, j: int | j > kappa - mk
      ensures !(lo <= Decimal(o, j) <= hi)
    {
      NoneCoarser(low, w, high, c, kappa, mk, lo, x, hi, o, j);
    }
    var e := kappa - mk;
    forall o: nat | o != c && lo <= Decimal(o, e) <= hi
      ensures Distance(Decimal(c, e), x) < Distance(Decimal(o, e), x)
    {
      OtherIsFarther(low, w, high, c, kappa, mk, lo, x, hi, o);
    }
  }
}
