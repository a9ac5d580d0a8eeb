/** A double and its boundaries with 64-bit significands and a common exponent. */
module Boundaries {
  import opened Arith
  import opened RealPowers
  import opened Ieee
  import opened DiyFps
  import opened DecimalRounding
  import DtoaStart
  import Powers

  /** The number, with its top bit set. */
  method AsNormalizedDiyFp(v: Double) returns (r: DiyFp)
    requires 0 < v.d64 && v.Finite()
    ensures r.f as int >= TWO63 && r.e <= v.Exponent() - 11 &&
            r.f as int == v.Significand() as int * Pow(2, v.Exponent() - r.e)
  {
    hide Pow, Double.Exponent;
    DtoaStart.PredecessorUnit(v);
    SignificandBound(v);
    var f, e := v.Significand(), v.Exponent();
    PowBasics(2);
    while f / HIDDEN_BIT == 0
      invariant 0 < f < 2 * HIDDEN_BIT && e <= v.Exponent() &&
                f as int == v.Significand() as int * Pow(2, v.Exponent() - e)
      decreases HIDDEN_BIT as int - f as int
    {
      Doubled(v.Significand() as int, v.Exponent() - e);
      f, e := f * 2, e - 1;
    }
    ShiftEleven(v.Significand() as int, v.Exponent() - e);
    f := f * 2048;
    e := e - 11;
    r := DiyFp(f, e);
  }

  lemma {:induction false} SignificandBound(v: Double)
    ensures v.Significand() < 2 * HIDDEN_BIT
  {
  }

  lemma {:induction false} Doubled(s: int, k: nat)
    ensures s * Pow(2, k) * 2 == s * Pow(2, k + 1)
  {
  }

  lemma {:induction false} ShiftEleven(s: int, k: nat)
    ensures s * Pow(2, k) * 2048 == s * Pow(2, k + 11)
  {
    PowAdd(2, k, 11);
    DiyFps.Regroup(s, Pow(2, k), 2048);
    assert Pow(2, 11) == 2048;
  }

  /** The boundaries of the double; the upper one is normalized and the lower one has its exponent. */
  method NormalizedBoundaries(v: Double) returns (mMinus: DiyFp, mPlus: DiyFp)
    requires 0 < v.d64 && v.Finite()
    ensures mPlus.f as int >= TWO63 && mMinus.e == mPlus.e <= v.Exponent() - 2
    ensures mPlus.f as int == (2 * v.Significand() as int + 1) * Pow(2, v.Exponent() - 1 - mPlus.e)
    ensures mMinus.f as int == if v.LowerBoundaryIsCloser()
            then (4 * v.Significand() as int - 1) * Pow(2, v.Exponent() - 2 - mPlus.e)
                               else (2 * v.Significand() as int - 1) * Pow(2, v.Exponent() - 1 - mPlus.e)
  {
    hide Pow, Double.Exponent, Double.LowerBoundaryIsCloser;
    DtoaStart.PredecessorUnit(v);
    SignificandBound(v);
    var upper := v.UpperBoundary();
    mPlus := Normalize(upper);
    Shifted(upper, mPlus);
    var m := if v.LowerBoundaryIsCloser() then DiyFp(v.Significand() * 4 - 1, v.Exponent() - 2)
        else DiyFp(v.Significand() * 2 - 1, v.Exponent() - 1);
    LowerFits(v.Significand() as int, v.Exponent() - 1 - mPlus.e, v.LowerBoundaryIsCloser());
    var f := (m.f as int * Pow(2, m.e - mPlus.e)) as uint64;
    mMinus := DiyFp(f, mPlus.e);
  }

  /** Normalizing the upper boundary, a number below 2^55, shifts it. */
  lemma {:induction false} Shifted(a: DiyFp, r: DiyFp)
    requires IsShifted(r, a) && r.f as int >= TWO63 && a.f < 4 * HIDDEN_BIT
    ensures r.e < a.e
  {
  }

  lemma {:induction false} LowerFits(s: int, k: int, closer: bool)
    requires s > 0 && k >= 1 && (2 * s + 1) * Pow(2, k) < TWO64
    ensures 0 <= (2 * s - 1) * Pow(2, k) < TWO64
    ensures 0 <= (4 * s - 1) * Pow(2, k - 1) < TWO64
  {
    hide Pow;
    Doubled(2 * s + 1, k - 1);
    MulMono(0, 2 * s - 1, Pow(2, k));
    MulMono(2 * s - 1, 2 * s + 1, Pow(2, k));
    MulMono(0, 4 * s - 1, Pow(2, k - 1));
    MulMono(4 * s - 1, 2 * (2 * s + 1), Pow(2, k - 1));
  }

  // ---- What the significands stand for ----

  /** x is exactly the significand, in units of the exponent. */
  ghost predicate Exactly(x: real, d: DiyFp) {
    x * Exp(2, -d.e) == d.f as real
  }

  lemma {:induction false} ShiftedExactly(n: nat, e: int, d: DiyFp)
    requires d.e <= e && d.f as int == n * Pow(2, e - d.e)
    ensures Exactly(n as real * Exp(2, e), d)
  {
    hide Exp, Pow;
    ExpAdd(2, e, -d.e);
    ExpNat(2, e - d.e);
    CastProduct(n, Pow(2, e - d.e));
    Associated(n as real, Exp(2, e), Exp(2, -d.e));
  }

  lemma {:induction false} Associated(a: real, b: real, c: real)
    ensures (a * b) * c == a * (b * c)
  {
  }

  lemma {:induction false} UpperExactly(v: Double, d: DiyFp)
    requires v.Finite() && d.e <= v.Exponent() - 1 &&
             d.f as int == (2 * v.Significand() as int + 1) * Pow(2, v.Exponent() - 1 - d.e)
    ensures Exactly(v.UpperBoundary().Value(), d)
  {
    hide Exp, Pow, Double.Exponent;
    SignificandBound(v);
    ShiftedExactly(2 * v.Significand() as int + 1, v.Exponent() - 1, d);
  }

  lemma {:induction false} LowerExactly(v: Double, d: DiyFp)
    requires 0 < v.d64 && v.Finite() && d.e <= v.Exponent() - 2
    requires d.f as int == if v.LowerBoundaryIsCloser()
             then (4 * v.Significand() as int - 1) * Pow(2, v.Exponent() - 2 - d.e)
                           else (2 * v.Significand() as int - 1) * Pow(2, v.Exponent() - 1 - d.e)
    ensures Exactly(LowerBoundary(v), d)
  {
    hide Exp, Pow, Double.Exponent, Double.LowerBoundaryIsCloser, Double.Significand, LowerBoundary;
    DtoaStart.LowerDistance(v);
    ExpStep(2, v.Exponent() - 1);
    ExpStep(2, v.Exponent() - 2);
    var s := v.Significand() as int;
    if v.LowerBoundaryIsCloser() {
      QuarterBelow(s as real, Exp(2, v.Exponent()), Exp(2, v.Exponent() - 2));
      ShiftedExactly(4 * s - 1, v.Exponent() - 2, d);
    } else {
      HalfBelow(s as real, Exp(2, v.Exponent()), Exp(2, v.Exponent() - 1));
      ShiftedExactly(2 * s - 1, v.Exponent() - 1, d);
    }
  }

  lemma {:induction false} QuarterBelow(s: real, u: real, q: real)
    requires u == 2.0 * (2.0 * q)
    ensures s * u - q == (4.0 * s - 1.0) * q
  {
  }

  lemma {:induction false} HalfBelow(s: real, u: real, h: real)
    requires u == 2.0 * h
    ensures s * u - h == (2.0 * s - 1.0) * h
  {
  }

  /** The normalized number and its boundaries have the same exponent and lie 2^(k-1) apart, or 2^(k-2) where the unit
      changes. */
  lemma {:induction false} Spacing(v: Double, w: DiyFp, mMinus: DiyFp, mPlus: DiyFp)
    requires 0 < v.d64 && v.Finite()
    requires w.f as int >= TWO63 && w.e <= v.Exponent() - 11 &&
             w.f as int == v.Significand() as int * Pow(2, v.Exponent() - w.e)
    requires mPlus.f as int >= TWO63 && mMinus.e == mPlus.e <= v.Exponent() - 2
    requires mPlus.f as int == (2 * v.Significand() as int + 1) * Pow(2, v.Exponent() - 1 - mPlus.e)
    requires mMinus.f as int == if v.LowerBoundaryIsCloser()
             then (4 * v.Significand() as int - 1) * Pow(2, v.Exponent() - 2 - mPlus.e)
                                else (2 * v.Significand() as int - 1) * Pow(2, v.Exponent() - 1 - mPlus.e)
    ensures w.e == mPlus.e && 0 < mMinus.f <= w.f <= mPlus.f
    ensures mPlus.f as int - mMinus.f as int >= 1536 && mPlus.f as int <= TWO64 - 1024
    ensures mPlus.f as int <= 0x23_86F2_6FC1_0000 * (mPlus.f as int - mMinus.f as int)
  {
    hide Pow, Double.Exponent, Double.Significand, Double.LowerBoundaryIsCloser;
    var s, k := v.Significand() as int, v.Exponent() - w.e;
    SameExponent(s, k, v.Exponent() - mPlus.e);
    FieldsOf(v);
    PowAdd(2, k - 2, 1);
    PowAdd(2, k - 1, 1);
    PowMono(2, 9, k - 2);
    SmallTwoPowers();
    BelowTop(2 * s + 1, k - 1, Pow(2, k - 2));
    SpacingCore(s, Pow(2, k - 2), v.LowerBoundaryIsCloser(), w.f as int, mMinus.f as int, mPlus.f as int);
  }

  lemma {:induction false} FieldsOf(v: Double)
    requires 0 < v.d64 && v.Finite()
    ensures 0 < v.Significand() < 2 * HIDDEN_BIT
    ensures v.LowerBoundaryIsCloser() ==> v.Significand() == HIDDEN_BIT
  {
    DtoaStart.PredecessorUnit(v);
  }

  lemma {:induction false} SmallTwoPowers()
    ensures Pow(2, 9) == 512 && Pow(2, 1) == 2
  {
    PowAdd(2, 4, 5);
    assert Pow(2, 4) == 16 && Pow(2, 5) == 32;
  }

  /** Shifting a number and one with half a unit more until the top bit is set takes equally many bits. */
  lemma {:induction false} SameExponent(s: int, k: int, m: int)
    requires s > 0 && k >= 1 && m >= 1
    requires TWO63 <= s * Pow(2, k) < TWO64 && TWO63 <= (2 * s + 1) * Pow(2, m - 1) < TWO64
    ensures k == m
  {
    hide Pow;
    if m > k {
      PowMono(2, k, m - 1);
      MulMono(Pow(2, k), Pow(2, m - 1), 2 * s + 1);
      TwicePlus(s, Pow(2, k));
    } else if m < k {
      PowMono(2, m, k - 1);
      PowAdd(2, m - 1, 1);
      PowAdd(2, k - 1, 1);
      SmallTwoPowers();
      HalfPlus(s, Pow(2, m - 1), Pow(2, k - 1), k);
    }
  }

  lemma {:induction false} TwicePlus(s: int, p: int)
    requires p > 0
    ensures p * (2 * s + 1) > 2 * (s * p) && p * (2 * s + 1) == (2 * s + 1) * p
  {
  }

  lemma {:induction false} HalfPlus(s: int, q: int, h: int, k: int)
    requires s > 0 && 0 < q && 2 * q <= h && k >= 1 && h == Pow(2, k - 1) && s * (2 * h) < TWO64
    ensures (2 * s + 1) * q < TWO63
  {
    hide Pow;
    MulMono(2 * q, h, 2 * s + 1);
    BelowTop(s, k, h);
    TwiceProduct(s, q, h);
  }

  lemma {:induction false} TwiceProduct(s: int, q: int, h: int)
    ensures 2 * ((2 * s + 1) * q) == 2 * q * (2 * s + 1) && h * (2 * s + 1) == s * (2 * h) + h
  {
  }

  /** A multiple of 2^k below 2^64 is at least 2^k below. */
  lemma {:induction false} BelowTop(s: int, k: int, h: int)
    requires s > 0 && k >= 1 && h == Pow(2, k - 1) && s * (2 * h) < TWO64
    ensures s * (2 * h) <= TWO64 - 2 * h
  {
    hide Pow;
    Powers.Pow2Word(64);
    PowAdd(2, k - 1, 1);
    SmallTwoPowers();
    if k > 64 {
      PowMono(2, 64, k);
      MulMono(1, s, 2 * h);
    } else {
      PowAdd(2, k, 64 - k);
      if s >= Pow(2, 64 - k) { MulMono(Pow(2, 64 - k), s, 2 * h); }
      MulMono(s, Pow(2, 64 - k) - 1, 2 * h);
      TimesPredecessor(Pow(2, 64 - k), 2 * h);
    }
  }

  lemma {:induction false} SpacingCore(s: int, q: int, closer: bool, w: int, minus: int, plus: int)
    requires 0 < s < 0x20_0000_0000_0000 && q >= 512 && (closer ==> s == 0x10_0000_0000_0000) && w < TWO64 &&
             plus < TWO64
    requires w == s * (q * 2 * 2) && plus == (2 * s + 1) * (q * 2)
    requires minus == if closer then (4 * s - 1) * q else (2 * s - 1) * (q * 2)
    ensures 0 < minus <= w <= plus && plus - minus >= 1536
    ensures plus <= 0x23_86F2_6FC1_0000 * (plus - minus)
  {
    var sq := s * q;
    assert w == 4 * sq && plus == 4 * sq + 2 * q;
    assert closer ==> minus == 4 * sq - q;
    assert !closer ==> minus == 4 * sq - 2 * q;
    MulMono(s, 0x1F_FFFF_FFFF_FFFF, q);
  }
}
