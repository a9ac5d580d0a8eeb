/** The binary64 encoding and correct rounding (IEEE 754-2008, sections 3.4 and 4.3.1). */
module Ieee {
  import opened Arith
  import opened RealPowers

  const HIDDEN_BIT: uint64 := 0x10_0000_0000_0000
  const SIGN_BIT: uint64 := 0x8000_0000_0000_0000
  const INFINITY: uint64 := 0x7FF0_0000_0000_0000
  const EXPONENT_BIAS := 1075
  const DENORMAL_EXPONENT := -1074
  const MAX_EXPONENT := 972

  /** A 64-bit significand with a binary exponent, not necessarily normalized. */
  datatype DiyFp = DiyFp(f: uint64, e: int) {
    ghost function Value(): real {
      f as real * Exp(2, e)
    }
  }

  datatype Double = Double(d64: uint64) {

    function BiasedExponent(): uint64 {
      d64 / HIDDEN_BIT % 0x800
    }

    predicate IsDenormal() {
      BiasedExponent() == 0
    }

    predicate IsSpecial() {
      BiasedExponent() == 0x7FF
    }

    function Sign(): int {
      if d64 / SIGN_BIT == 0 then 1 else -1
    }

    function Exponent(): int {
      if IsDenormal() then DENORMAL_EXPONENT else BiasedExponent() as int - EXPONENT_BIAS
    }

    function Significand(): uint64 {
      d64 % HIDDEN_BIT + if IsDenormal() then 0 else HIDDEN_BIT
    }

    /** The next greater double; for the numbers at and above +0.0 that is the next word. */
    function NextDouble(): Double {
      if d64 == INFINITY then Double(INFINITY)
      else if Sign() < 0 && Significand() == 0 then Double(0)
      else if Sign() < 0 then Double(d64 - 1)
      else Double(d64 + 1)
    }

    function UpperBoundary(): DiyFp {
      DiyFp(Significand() * 2 + 1, Exponent() - 1)
    }

    predicate LowerBoundaryIsCloser() {
      d64 % HIDDEN_BIT == 0 && Exponent() != DENORMAL_EXPONENT
    }

    /** Not negative and not a NaN. */
    predicate Ordered() {
      d64 <= INFINITY
    }

    predicate Finite() {
      d64 < INFINITY
    }

    predicate IsEven() {
      Significand() % 2 == 0
    }

    /** The encoded number; +infinity stands for 2^1024, the first power of two it replaces. */
    ghost function Value(): (r: real)
      ensures r >= 0.0
    {
      Significand() as real * Exp(2, Exponent())
    }
  }

  /** The fields of the next word: one more in the significand, or a carry into the exponent. */
  lemma {:induction false} SuccessorFields(d: Double)
    requires d.Finite()
    ensures var n := Double(d.d64 + 1);
            || (n.Exponent() == d.Exponent() && n.Significand() == d.Significand() + 1)
            || (n.Exponent() == d.Exponent() + 1 && n.Significand() == HIDDEN_BIT &&
                d.Significand() == 2 * HIDDEN_BIT - 1)
  {
    var n := Double(d.d64 + 1);
    var h, l := d.d64 as int / 0x10_0000_0000_0000, d.d64 as int % 0x10_0000_0000_0000;
    assert d.d64 as int == h * 0x10_0000_0000_0000 + l;
    if l == 0xF_FFFF_FFFF_FFFF {
      assert n.d64 as int == (h + 1) * 0x10_0000_0000_0000;
      assert n.BiasedExponent() as int == h + 1;
    } else {
      assert n.d64 as int == h * 0x10_0000_0000_0000 + (l + 1);
      assert n.BiasedExponent() as int == h;
    }
  }

  /** A finite number and its successor are one unit in the last place apart. */
  lemma {:induction false} SuccessorValue(d: Double)
    requires d.Finite()
    ensures Double(d.d64 + 1).Value() == d.Value() + Exp(2, d.Exponent())
    ensures Double(d.d64 + 1).IsEven() != d.IsEven()
    ensures d.Value() < Double(d.d64 + 1).Value()
  {
    hide Exp, Pow, Double.Exponent, Double.Significand;
    SuccessorFields(d);
    ExpStep(2, d.Exponent());
    NextUnit(d.Significand() as int, Exp(2, d.Exponent()));
    NextBinade(Exp(2, d.Exponent()));
  }

  lemma {:induction false} NextUnit(s: int, unit: real)
    ensures (s + 1) as real * unit == s as real * unit + unit
  {
  }

  lemma {:induction false} NextBinade(unit: real)
    ensures HIDDEN_BIT as real * (2.0 * unit) == (2 * HIDDEN_BIT - 1) as real * unit + unit
  {
  }

  lemma {:induction false} ValueMono(a: Double, b: Double)
    requires a.d64 < b.d64 && b.Ordered()
    ensures a.Value() < b.Value()
    decreases b.d64
  {
    hide Exp, Pow, Double.Value, DiyFp.Value, Double.Exponent, Double.Significand, Double.UpperBoundary, Double.IsEven;
    var p := Double(b.d64 - 1);
    SuccessorValue(p);
    if a.d64 < p.d64 { ValueMono(a, p); }
  }

  /** The upper boundary lies half way to the successor. */
  lemma {:induction false} BoundaryIsMidpoint(d: Double)
    requires d.Finite()
    ensures d.UpperBoundary().Value() == (d.Value() + Double(d.d64 + 1).Value()) / 2.0
    ensures d.UpperBoundary().Value() == d.Value() + Exp(2, d.Exponent() - 1)
    ensures d.Value() < d.UpperBoundary().Value() < Double(d.d64 + 1).Value()
  {
    hide Exp, Pow, Double.Exponent, Double.Significand;
    SuccessorValue(d);
    ExpStep(2, d.Exponent() - 1);
    HalfUnit(d.Significand() as int, Exp(2, d.Exponent()), Exp(2, d.Exponent() - 1));
  }

  lemma {:induction false} HalfUnit(s: int, unit: real, half: real)
    requires unit == 2.0 * half
    ensures (s * 2 + 1) as real * half == s as real * unit + half
  {
    assert (s * 2 + 1) as real == s as real * 2.0 + 1.0;
  }

  /** d is what x >= 0 rounds to: x is between d's boundaries, on a boundary only if d is even. */
  ghost predicate RoundsTo(x: real, d: Double) {
    && d.Ordered() && x >= 0.0
    && (d.d64 > 0 ==> var lower := Double(d.d64 - 1).UpperBoundary().Value();
                      lower < x || (lower == x && d.IsEven()))
    && (d.Finite() ==> var upper := d.UpperBoundary().Value();
                       x < upper || (x == upper && d.IsEven()))
  }

  /** roundTiesToEven: d is closest to x among all doubles, and even when another one is as close. */
  ghost predicate NearestEven(x: real, d: Double) {
    d.Ordered() && forall o: Double :: o.Ordered() ==>
      && Distance(x, d.Value()) <= Distance(x, o.Value())
      && (o != d && Distance(x, d.Value()) == Distance(x, o.Value()) ==> d.IsEven())
  }

  ghost function Distance(x: real, y: real): real {
    if x < y then y - x else x - y
  }

  lemma {:induction false} RoundsToClosest(x: real, d: Double, o: Double)
    requires o.Ordered() && RoundsTo(x, d)
    ensures Distance(x, d.Value()) <= Distance(x, o.Value())
    ensures o != d && Distance(x, d.Value()) == Distance(x, o.Value()) ==> d.IsEven()
  {
    hide Exp, Pow, Double.Value, DiyFp.Value, Double.Exponent, Double.Significand, Double.UpperBoundary, Double.IsEven;
    if d.d64 < o.d64 {
      BoundaryIsMidpoint(d);
      if d.d64 + 1 < o.d64 { ValueMono(Double(d.d64 + 1), o); }
    } else if o.d64 < d.d64 {
      BoundaryIsMidpoint(Double(d.d64 - 1));
      if o.d64 < d.d64 - 1 { ValueMono(o, Double(d.d64 - 1)); }
    }
  }

  /** The interval form and the nearest-even form of correct rounding agree. */
  lemma {:induction false} RoundsToIsNearestEven(x: real, d: Double)
    requires x >= 0.0
    ensures RoundsTo(x, d) <==> NearestEven(x, d)
  {
    hide Exp, Pow, Double.Value, DiyFp.Value, Double.Exponent, Double.Significand, Double.UpperBoundary, Double.IsEven;
    if RoundsTo(x, d) {
      forall o: Double | o.Ordered()
        ensures Distance(x, d.Value()) <= Distance(x, o.Value())
        ensures o != d && Distance(x, d.Value()) == Distance(x, o.Value()) ==> d.IsEven()
      {
        RoundsToClosest(x, d, o);
      }
    }
    if NearestEven(x, d) {
      if d.d64 > 0 {
        var p := Double(d.d64 - 1);
        BoundaryIsMidpoint(p);
        assert Distance(x, d.Value()) <= Distance(x, p.Value());
      }
      if d.Finite() {
        var n := Double(d.d64 + 1);
        BoundaryIsMidpoint(d);
        assert Distance(x, d.Value()) <= Distance(x, n.Value());
      }
    }
  }

  lemma {:induction false} BoundaryMono(a: Double, b: Double)
    requires a.d64 < b.d64 && b.Finite()
    ensures a.UpperBoundary().Value() < b.UpperBoundary().Value()
  {
    hide Exp, Pow, Double.Value, DiyFp.Value, Double.Exponent, Double.Significand, Double.UpperBoundary, Double.IsEven;
    BoundaryIsMidpoint(a);
    BoundaryIsMidpoint(b);
    if a.d64 + 1 < b.d64 { ValueMono(Double(a.d64 + 1), b); }
  }

  /** Correct rounding is unique. */
  lemma {:induction false} RoundsToUnique(x: real, a: Double, b: Double)
    requires RoundsTo(x, a) && RoundsTo(x, b)
    ensures a == b
  {
    RoundsToOrdered(x, a, b);
    RoundsToOrdered(x, b, a);
  }

  lemma {:induction false} RoundsToOrdered(x: real, a: Double, b: Double)
    requires RoundsTo(x, a) && RoundsTo(x, b)
    ensures b.d64 <= a.d64
  {
    hide Exp, Pow, Double.Value, DiyFp.Value, Double.Exponent, Double.Significand, Double.UpperBoundary, Double.IsEven;
    if a.d64 < b.d64 {
      var p := Double(b.d64 - 1);
      if a == p {
        SuccessorValue(p);
      } else {
        BoundaryMono(a, p);
      }
      assert false;
    }
  }

  /** Every number rounds to itself. */
  lemma {:induction false} ValueRoundsToItself(d: Double)
    requires d.Ordered()
    ensures RoundsTo(d.Value(), d)
  {
    hide Exp, Pow, Double.Value, DiyFp.Value, Double.Exponent, Double.Significand, Double.UpperBoundary, Double.IsEven;
    if d.Finite() { BoundaryIsMidpoint(d); }
    if d.d64 > 0 { BoundaryIsMidpoint(Double(d.d64 - 1)); }
  }
}
