/** The last step of the fast parser: from an inexact 64-bit significand to a double, if the error allows. */
module RoundToDouble {
  import opened Arith
  import opened RealPowers
  import opened Powers
  import opened Ieee
  import opened DecimalRounding
  import opened DtoaStart
  import opened DtoaFixup
  import opened DiyFps

  const DENOMINATOR_LOG := 3
  const DENOMINATOR: uint64 := 8

  /** x is less than `error` eighths of a unit away from d. */
  ghost predicate Near(x: real, d: DiyFp, error: int) {
    var scaled := 8.0 * (x * Exp(2, -d.e) - d.f as real);
    -(error as real) < scaled < error as real
  }

  /** 2^52 <= n < 2^53, or a denormal significand at the least exponent. */
  ghost predicate Placed(n: int, e: int) {
    (e >= DENORMAL_EXPONENT && 0x10_0000_0000_0000 <= n < 0x20_0000_0000_0000) ||
    (e == DENORMAL_EXPONENT && 0 <= n < 0x20_0000_0000_0000)
  }

  lemma {:induction false} EncodedValue(d: Double, n: nat, e: int)
    requires Encodes(d, n, e) && d.Finite()
    ensures d.Value() == n as real * Exp(2, e)
  {
    hide Exp, Pow, Double.Exponent, Double.Significand;
    if n == 0x20_0000_0000_0000 {
      ExpStep(2, e);
      TwiceHidden(Exp(2, e));
    }
  }

  lemma {:induction false} TwiceHidden(u: real)
    ensures 0x20_0000_0000_0000 as real * u == 0x10_0000_0000_0000 as real * (2.0 * u)
  {
  }

  lemma {:induction false} InfinityLower(e: int)
    requires e >= MAX_EXPONENT
    ensures LowerBoundary(Double(INFINITY)) == (0x10_0000_0000_0000 as real - 0.25) * Exp(2, MAX_EXPONENT)
    ensures LowerBoundary(Double(INFINITY)) <= (0x10_0000_0000_0000 as real - 0.25) * Exp(2, e)
  {
    hide Exp, Pow;
    LowerDistance(Double(INFINITY));
    ExpStep(2, MAX_EXPONENT - 1);
    ExpStep(2, MAX_EXPONENT - 2);
    if e > MAX_EXPONENT { ExpMono(2, MAX_EXPONENT, e); }
    InfinityParts(Exp(2, MAX_EXPONENT), Exp(2, e));
  }

  lemma {:induction false} InfinityParts(u: real, v: real)
    requires 0.0 < u <= v
    ensures 0x10_0000_0000_0000 as real * u - u / 4.0 == (0x10_0000_0000_0000 as real - 0.25) * u
    ensures (0x10_0000_0000_0000 as real - 0.25) * u <= (0x10_0000_0000_0000 as real - 0.25) * v
  {
  }

  lemma {:induction false} InfinityBelow(n: nat, e: int)
    requires n >= 0x10_0000_0000_0000 && e >= MAX_EXPONENT
    ensures LowerBoundary(Double(INFINITY)) <= (n as real - 0.25) * Exp(2, e)
  {
    hide Exp, LowerBoundary;
    InfinityLower(e);
    ScaleMore(n, Exp(2, e));
  }

  /** A number a bit below or up to half a unit above n rounds to n. */
  lemma {:induction false} RoundsDown(x: real, n: nat, e: int, d: Double)
    requires Placed(n, e) && Encodes(d, n, e) && x >= 0.0
    requires (n as real - 0.25) * Exp(2, e) < x < (n as real + 0.5) * Exp(2, e)
    ensures RoundsTo(x, d)
  {
    hide Exp, Pow, Double.Value, DiyFp.Value, Double.UpperBoundary, Double.LowerBoundaryIsCloser;
    if e >= MAX_EXPONENT {
      InfinityBelow(n, e);
    } else {
      EncodedValue(d, n, e);
      BoundaryIsMidpoint(d);
      ExpStep(2, e - 1);
      ExpStep(2, e - 2);
      HalfUnits(n as real, Exp(2, e));
      if d.d64 > 0 { LowerDistance(d); }
    }
  }

  lemma {:induction false} ScaleMore(n: nat, u: real)
    requires n >= 0x10_0000_0000_0000 && u > 0.0
    ensures (0x10_0000_0000_0000 as real - 0.25) * u <= (n as real - 0.25) * u
  {
    if n > 0x10_0000_0000_0000 { ScaleOrder(0x10_0000_0000_0000 as real - 0.25, n as real - 0.25, u); }
  }

  lemma {:induction false} HalfUnits(n: real, u: real)
    ensures (n + 0.5) * u == n * u + u / 2.0 && (n - 0.5) * u == n * u - u / 2.0
    ensures (n - 0.25) * u == n * u - u / 4.0 && (n + 0.25) * u == n * u + u / 4.0
  {
  }

  /** A number from half a unit below to a bit above n rounds to n, unless n is the least of its binade. */
  lemma {:induction false} RoundsUp(x: real, n: nat, e: int, d: Double)
    requires n > 0 && Placed(n - 1, e) && Encodes(d, n, e) && x >= 0.0
    requires (n as real - 0.5) * Exp(2, e) < x < (n as real + 0.25) * Exp(2, e)
    ensures RoundsTo(x, d)
  {
    hide Exp, Pow, Double.Value, DiyFp.Value, Double.UpperBoundary, Double.LowerBoundaryIsCloser;
    HalfUnits(n as real, Exp(2, e));
    ExpStep(2, e - 1);
    ExpStep(2, e - 2);
    if d.d64 == INFINITY {
      InfinityAbove(x, n, e);
    } else {
      EncodedValue(d, n, e);
      BoundaryIsMidpoint(d);
      NextToIt(d, n, e);
      LowerDistance(d);
      ExpStep(2, e);
    }
  }

  lemma {:induction false} InfinityAbove(x: real, n: nat, e: int)
    requires n > 0 && Placed(n - 1, e) && (e >= MAX_EXPONENT || (n == 0x20_0000_0000_0000 && e + 1 >= MAX_EXPONENT))
    requires (n as real - 0.5) * Exp(2, e) < x
    ensures LowerBoundary(Double(INFINITY)) < x
  {
    hide Exp, Pow;
    if e >= MAX_EXPONENT {
      InfinityBelow(n - 1, e);
      AboveLess(n, Exp(2, e));
    } else {
      InfinityLower(e + 1);
      ExpStep(2, e);
      HalfOfDouble(Exp(2, e));
    }
  }

  lemma {:induction false} AboveLess(n: nat, u: real)
    requires n > 0 && u > 0.0
    ensures ((n - 1) as real - 0.25) * u <= (n as real - 0.5) * u
  {
    ScaleOrder((n - 1) as real - 0.25, n as real - 0.5, u);
  }

  lemma {:induction false} HalfOfDouble(u: real)
    ensures (0x20_0000_0000_0000 as real - 0.5) * u == (0x10_0000_0000_0000 as real - 0.25) * (2.0 * u)
  {
  }

  /** The lower boundary is half a unit of e below n. */
  lemma {:induction false} NextToIt(d: Double, n: nat, e: int)
    requires n > 0 && Placed(n - 1, e) && Encodes(d, n, e) && d.Finite()
    ensures d.d64 > 0
    ensures if d.LowerBoundaryIsCloser() then d.Exponent() == e + 1 else d.Exponent() == e
  {
  }

  /** d is the correct double or the one just below it. */
  ghost predicate CorrectOrBelow(x: real, d: Double) {
    RoundsTo(x, d) || (d.Finite() && RoundsTo(x, Double(d.d64 + 1)))
  }

  /** Between the lower boundary of d and the upper boundary of its successor one of the two is correct. */
  lemma {:induction false} EnclosedIsCorrectOrBelow(x: real, d: Double)
    requires d.Finite() && x >= 0.0 && (d.d64 > 0 ==> LowerBoundary(d) < x)
    requires Double(d.d64 + 1).Finite() ==> x < Double(d.d64 + 1).UpperBoundary().Value()
    ensures CorrectOrBelow(x, d)
  {
    hide Double.UpperBoundary, DiyFp.Value, Double.IsEven, Double.Value;
    SuccessorValue(d);
  }

  /** x is below n + a units of 2^p, read off the low bits m and the error. */
  lemma {:induction false} BelowUnits(x: real, input: DiyFp, error: int, n: nat, m: nat, p: nat, a: real)
    requires Near(x, input, error) && input.f as int == n * Pow(2, p) + m
    requires (8 * m + error) as real <= 8.0 * (a * Pow(2, p) as real)
    ensures x < (n as real + a) * Exp(2, input.e + p)
  {
    hide Exp, Pow;
    var w, u := Pow(2, p), Exp(2, input.e);
    ExpAdd(2, input.e, p);
    ExpNat(2, p);
    ExpNeg(2, input.e);
    CastProduct(n, w);
    Unscale(x, Exp(2, -input.e), u);
    Distributed(n as real, a, w as real);
    Rescaled(x * Exp(2, -input.e), n as real + a, w as real, u);
  }

  lemma {:induction false} AboveUnits(x: real, input: DiyFp, error: int, n: nat, m: nat, p: nat, a: real)
    requires Near(x, input, error) && input.f as int == n * Pow(2, p) + m
    requires (8 * m - error) as real >= 8.0 * (a * Pow(2, p) as real)
    ensures (n as real + a) * Exp(2, input.e + p) < x
  {
    hide Exp, Pow;
    var w, u := Pow(2, p), Exp(2, input.e);
    ExpAdd(2, input.e, p);
    ExpNat(2, p);
    ExpNeg(2, input.e);
    CastProduct(n, w);
    Unscale(x, Exp(2, -input.e), u);
    Distributed(n as real, a, w as real);
    Rescaled(x * Exp(2, -input.e), n as real + a, w as real, u);
  }

  lemma {:induction false} Unscale(x: real, y: real, u: real)
    requires u * y == 1.0
    ensures x == (x * y) * u
  {
    assert (x * y) * u == x * (u * y);
  }

  lemma {:induction false} Distributed(n: real, a: real, w: real)
    ensures (n + a) * w == n * w + a * w
  {
  }

  lemma {:induction false} Rescaled(scaled: real, b: real, w: real, u: real)
    requires u > 0.0
    ensures scaled * u < b * (u * w) <==> scaled < b * w
    ensures b * (u * w) < scaled * u <==> b * w < scaled
  {
    assert b * (u * w) == (b * w) * u;
    ScaleOrder(scaled, b * w, u);
    ScaleOrder(b * w, scaled, u);
  }

  /** Clearly below the half-way point: rounded down. */
  lemma {:induction false} ClearlyBelow(x: real, input: DiyFp, error: int, n: nat, m: nat, p: nat, d: Double)
    requires x >= 0.0 && Near(x, input, error) && input.f as int == n * Pow(2, p) + m && 0 <= error <= Pow(2, p)
    requires Placed(n, input.e + p) && Encodes(d, n, input.e + p) && 8 * m + error <= 4 * Pow(2, p)
    ensures RoundsTo(x, d)
  {
    hide Exp, Pow, Near, Placed, Encodes, RoundsTo;
    BelowUnits(x, input, error, n, m, p, 0.5);
    AboveUnits(x, input, error, n, m, p, -0.25);
    MinusQuarter(n as real);
    RoundsDown(x, n, input.e + p, d);
  }

  lemma {:induction false} MinusQuarter(n: real)
    ensures n + -0.25 == n - 0.25
  {
  }

  /** Clearly above the half-way point: rounded up. */
  lemma {:induction false} ClearlyAbove(x: real, input: DiyFp, error: int, n: nat, m: nat, p: nat, d: Double)
    requires x >= 0.0 && Near(x, input, error) && input.f as int == n * Pow(2, p) + m && 0 <= error <= Pow(2, p)
    requires m < Pow(2, p) && Placed(n, input.e + p) && Encodes(d, n + 1, input.e + p) && 8 * m >= 4 * Pow(2, p) + error
    ensures RoundsTo(x, d)
  {
    hide Exp, Pow, Near, Placed, Encodes, RoundsTo;
    AboveUnits(x, input, error, n, m, p, 0.5);
    BelowUnits(x, input, error, n, m, p, 1.25);
    NextBounds(n, Exp(2, input.e + p));
    RoundsUp(x, n + 1, input.e + p, d);
  }

  lemma {:induction false} NextBounds(n: nat, u: real)
    ensures (n as real + 0.5) * u == ((n + 1) as real - 0.5) * u
    ensures (n as real + 1.25) * u == ((n + 1) as real + 0.25) * u
  {
    assert (n + 1) as real == n as real + 1.0;
  }

  /** Too close to tell: n itself or the next number. */
  lemma {:induction false} CloseToHalf(x: real, input: DiyFp, error: int, n: nat, m: nat, p: nat, d: Double)
    requires x >= 0.0 && Near(x, input, error) && input.f as int == n * Pow(2, p) + m && 0 <= error <= Pow(2, p)
    requires Placed(n, input.e + p) && Encodes(d, n, input.e + p)
    requires 8 * m + error > 4 * Pow(2, p) && 8 * m < 4 * Pow(2, p) + error
    ensures CorrectOrBelow(x, d)
  {
    hide Exp, Pow, Near;
    BelowUnits(x, input, error, n, m, p, 1.0);
    AboveUnits(x, input, error, n, m, p, 0.0);
    BetweenNeighbours(x, n, input.e + p, d);
  }

  /** x is less than a sixteenth of a unit away from the half-way point above d, or d is zero or infinity. */
  ghost predicate NearTie(x: real, d: Double) {
    || d.d64 == 0 || d.d64 == INFINITY
    || (d.Finite() && Distance(x, d.UpperBoundary().Value()) < Exp(2, d.Exponent()) / 16.0)
  }

  /** Too close to tell means really close. */
  lemma {:induction false} CloseIsNearTie(x: real, input: DiyFp, error: int, n: nat, m: nat, p: nat, d: Double)
    requires Near(x, input, error) && input.f as int == n * Pow(2, p) + m && 0 <= 4 * error <= Pow(2, p)
    requires Placed(n, input.e + p) && Encodes(d, n, input.e + p)
    requires 8 * m + error > 4 * Pow(2, p) && 8 * m < 4 * Pow(2, p) + error
    ensures NearTie(x, d)
  {
    hide Exp, Pow, Near, Double.Value, DiyFp.Value, Double.UpperBoundary, Double.Exponent, Double.Significand;
    BelowUnits(x, input, error, n, m, p, 0.5625);
    AboveUnits(x, input, error, n, m, p, 0.4375);
    var e := input.e + p;
    if d.Finite() {
      EncodedValue(d, n, e);
      BoundaryIsMidpoint(d);
      ExpStep(2, e - 1);
      Sixteenth(x, n as real, Exp(2, e));
    }
  }

  lemma {:induction false} ZeroIsExempt(x: real)
    ensures NearTie(x, Double(0))
  {
  }

  lemma {:induction false} Sixteenth(x: real, n: real, u: real)
    requires (n + 0.4375) * u < x < (n + 0.5625) * u
    ensures Distance(x, n * u + u / 2.0) < u / 16.0
  {
    assert (n + 0.4375) * u == n * u + 0.4375 * u && (n + 0.5625) * u == n * u + 0.5625 * u;
  }

  lemma {:induction false} BetweenNeighbours(x: real, n: nat, e: int, d: Double)
    requires Placed(n, e) && Encodes(d, n, e) && x >= 0.0
    requires (n as real + 0.0) * Exp(2, e) < x < (n as real + 1.0) * Exp(2, e)
    ensures CorrectOrBelow(x, d)
  {
    hide Exp, Pow, Double.UpperBoundary, DiyFp.Value, Double.Value;
    Neighbours(n as real, Exp(2, e));
    if d.d64 == INFINITY {
      InfinityBelow(n, e);
    } else {
      EncodedValue(d, n, e);
      SuccessorValue(d);
      if d.d64 > 0 { BoundaryIsMidpoint(Double(d.d64 - 1)); }
      if Double(d.d64 + 1).Finite() { BoundaryIsMidpoint(Double(d.d64 + 1)); }
      EnclosedIsCorrectOrBelow(x, d);
    }
  }

  lemma {:induction false} Neighbours(n: real, u: real)
    requires u > 0.0
    ensures (n + 0.0) * u == n * u && (n + 1.0) * u == n * u + u && (n - 0.25) * u < n * u
  {
    assert (n - 0.25) * u == n * u - 0.25 * u;
  }

  /** Numbers below half the least denormal. */
  lemma {:induction false} TinyRounds(x: real, input: DiyFp, error: int)
    requires x >= 0.0 && Near(x, input, error) && 0 <= error <= 800 && input.e <= -1139
    ensures CorrectOrBelow(x, Double(0))
    ensures input.e < -1139 || x <= Exp(2, -1075) ==> RoundsTo(x, Double(0))
  {
    hide Exp, Pow, Near, Double.UpperBoundary, DiyFp.Value, Double.Value;
    Pow65();
    BelowUnits(x, input, error, 0, input.f as int, 65, 1.0);
    assert (0 as real + 1.0) * Exp(2, input.e + 65) == Exp(2, input.e + 65);
    FirstBoundaries();
    if input.e + 65 < -1074 { ExpMono(2, input.e + 65, -1074); }
    if input.e + 65 < -1075 { ExpMono(2, input.e + 65, -1075); }
    EnclosedIsCorrectOrBelow(x, Double(0));
  }

  lemma {:induction false} Pow65()
    ensures 8 * TWO64 + 800 <= 8 * Pow(2, 65)
  {
    hide Pow;
    Pow2Word(64);
    PowBasics(2);
    PowAdd(2, 64, 1);
  }

  lemma {:induction false} FirstBoundaries()
    ensures Double(0).UpperBoundary().Value() == Exp(2, -1075)
    ensures Exp(2, -1074) < Double(1).UpperBoundary().Value()
    ensures Double(0).IsEven()
  {
    hide Exp, Pow, DiyFp.Value, Double.UpperBoundary;
    BoundaryIsMidpoint(Double(0));
    BoundaryIsMidpoint(Double(1));
    ZeroAndOne(Exp(2, -1074));
  }

  lemma {:induction false} ZeroAndOne(u: real)
    requires u == Exp(2, -1074)
    ensures Double(0).Value() == 0.0 && Double(1).Value() == u
    ensures Double(0).Exponent() == -1074 && Double(0).IsEven()
  {
    hide Exp, Pow;
    assert Double(0).Significand() == 0 && Double(1).Significand() == 1;
  }

  /** How many significant bits a double of this order of magnitude has; fewer for denormals. */
  function SignificandSizeForOrderOfMagnitude(order: int): (r: int)
    ensures 0 <= r <= 53
  {
    if order >= DENORMAL_EXPONENT + 53 then 53
    else if order <= DENORMAL_EXPONENT then 0
    else order - DENORMAL_EXPONENT
  }

  /** Dropping low bits costs one unit, and one eighth for those of the error. */
  lemma {:induction false} DroppedBits(x: real, input: DiyFp, error: nat, shift: nat)
    requires Near(x, input, error)
    ensures Pow(2, shift) > 0 && 0 <= input.f as int / Pow(2, shift) < TWO64
    ensures Near(x, DiyFp((input.f as int / Pow(2, shift)) as uint64, input.e + shift), error / Pow(2, shift) + 9)
  {
    hide Exp, Pow, Near;
    QuotientParts(input.f as int, Pow(2, shift));
    QuotientParts(error, Pow(2, shift));
    DroppedParts(x, input, error, shift, input.f as int / Pow(2, shift), input.f as int % Pow(2, shift),
                 error / Pow(2, shift), error % Pow(2, shift));
  }

  lemma {:induction false} DroppedParts(x: real, input: DiyFp, error: nat, shift: nat, n: nat, m: nat, en: nat, em: nat)
    requires Near(x, input, error) && n < TWO64 && m < Pow(2, shift) && em < Pow(2, shift)
    requires input.f as int == n * Pow(2, shift) + m && error == en * Pow(2, shift) + em
    ensures Near(x, DiyFp(n as uint64, input.e + shift), en + 9)
  {
    hide Exp, Pow;
    var p := Pow(2, shift);
    ExpAdd(2, -(input.e + shift), shift);
    ExpNat(2, shift);
    CastProduct(n, p);
    CastProduct(en, p);
    RealAssociate(x, Exp(2, -(input.e + shift)), p as real);
    DroppedReal(x * Exp(2, -(input.e + shift)), p as real, n as real, m as real, en as real, em as real,
                x * Exp(2, -input.e), error as real);
  }

  lemma {:induction false} QuotientParts(f: int, p: int)
    requires f >= 0 && p > 0
    ensures f == f / p * p + f % p && 0 <= f % p < p && 0 <= f / p <= f
  {
    if f / p > f { MulMono(1, p, f / p); }
  }

  lemma {:induction false} DroppedReal(s: real, p: real, n: real, m: real, en: real, em: real, scaled: real,
                                       error: real)
    requires p > 0.0 && 0.0 <= m < p && 0.0 <= em < p && en >= 0.0 && scaled == s * p
    requires error == en * p + em && -error < 8.0 * (scaled - (n * p + m)) < error
    ensures -(en + 9.0) < 8.0 * (s - n) < en + 9.0
  {
    DroppedLinear(s * p, n * p, en * p, p, m, em);
    EightTimes(s, n, p);
    NineMore(en, p);
    CancelLess(8.0 * (s - n), en + 9.0, p, 8.0 * (s * p) - 8.0 * (n * p), en * p + 9.0 * p);
    CancelLess(-en - 9.0, 8.0 * (s - n), p, -(en * p) - 9.0 * p, 8.0 * (s * p) - 8.0 * (n * p));
  }

  lemma {:induction false} EightTimes(s: real, n: real, p: real)
    ensures (8.0 * (s - n)) * p == 8.0 * (s * p) - 8.0 * (n * p)
  {
    assert (s - n) * p == s * p - n * p;
  }

  lemma {:induction false} NineMore(en: real, p: real)
    ensures (en + 9.0) * p == en * p + 9.0 * p && (-en - 9.0) * p == -(en * p) - 9.0 * p
  {
  }

  lemma {:induction false} DroppedLinear(sp: real, np: real, ep: real, p: real, m: real, em: real)
    requires 0.0 <= m < p && 0.0 <= em < p && -(ep + em) < 8.0 * (sp - (np + m)) < ep + em
    ensures -ep - 9.0 * p < 8.0 * sp - 8.0 * np < ep + 9.0 * p
  {
  }

  lemma {:induction false} CancelLess(a: real, b: real, p: real, ap: real, bp: real)
    requires p > 0.0 && ap == a * p && bp == b * p && ap < bp
    ensures a < b
  {
    ScaleOrder(a, b, p);
  }

  /** Where the cut between kept and dropped bits lies. */
  lemma {:induction false} KeptBits(f: int, e: int, p: nat)
    requires TWO63 <= f < TWO64 && p == 64 - SignificandSizeForOrderOfMagnitude(64 + e)
    requires 64 + e >= DENORMAL_EXPONENT
    ensures Pow(2, p) > 0 && Placed(f / Pow(2, p), e + p)
  {
    hide Pow;
    Pow2Word(64);
    PowAdd(2, p, 64 - p);
    TwoPowers();
    PowMono(2, 64 - p, 53);
    QuotientBelow(f, Pow(2, p), Pow(2, 64 - p));
    if p == 11 { QuotientAbove(f, Pow(2, p), 0x10_0000_0000_0000); }
  }

  lemma {:induction false} TwoPowers()
    ensures Pow(2, 53) == 0x20_0000_0000_0000 && Pow(2, 11) == 2048
    ensures Pow(2, 52) == 0x10_0000_0000_0000
  {
    hide Pow;
    TwoTo52();
    PowBasics(2);
    PowAdd(2, 52, 1);
    PowAdd(2, 10, 1);
    Pow10Bits();
  }

  lemma {:induction false} QuotientBelow(f: int, p: int, q: int)
    requires p > 0 && 0 <= f < p * q
    ensures 0 <= f / p < q
  {
    QuotientParts(f, p);
    if f / p >= q { MulMono(q, f / p, p); }
  }

  lemma {:induction false} QuotientAbove(f: int, p: int, q: int)
    requires p > 0 && q >= 0 && f >= 0 && f >= q * p
    ensures f / p >= q
  {
    QuotientParts(f, p);
    if f / p < q { MulMono(f / p + 1, q, p); }
  }

  /** n / p / q is n / (p q). */
  lemma {:induction false} TwoCuts(f: nat, p: nat, q: nat)
    requires p > 0 && q > 0
    ensures p * q > 0 && f / p / q == f / (p * q)
  {
    QuotientParts(f, p);
    QuotientParts(f / p, q);
    MulMono(1, p, q);
    var n, r, m := f / p / q, f / p % q, f % p;
    assert f == n * (p * q) + (r * p + m) by { Nested(f, p, q, n, r, m); }
    MulMono(r + 1, q, p);
    MulMono(0, r, p);
    DivModUnique(f, p * q, n, r * p + m);
  }

  lemma {:induction false} Nested(f: int, p: int, q: int, n: int, r: int, m: int)
    requires f == (n * q + r) * p + m
    ensures f == n * (p * q) + (r * p + m)
  {
    assert (n * q + r) * p == n * (p * q) + r * p;
  }

  /** Shifts everything right when the scaled half-way point would not fit in 64 bits. */
  method MakeRoom(input: DiyFp, error: uint64, precisionDigitsCount: nat, ghost x: real)
    returns (output: DiyFp, newError: uint64, newCount: nat)
    requires Near(x, input, error as int) && error <= 400 && 11 <= precisionDigitsCount <= 64
    ensures Near(x, output, newError as int) && newError <= 409 && 11 <= newCount <= 60
    ensures output.e + newCount == input.e + precisionDigitsCount
    ensures output.f as int / Pow(2, newCount) == input.f as int / Pow(2, precisionDigitsCount)
  {
    hide Pow, Near;
    output, newError, newCount := input, error, precisionDigitsCount;
    if precisionDigitsCount + DENOMINATOR_LOG >= 64 {
      var shiftAmount := precisionDigitsCount + DENOMINATOR_LOG - 64 + 1;
      DroppedBits(x, input, error as int, shiftAmount);
      QuotientParts(error as int, Pow(2, shiftAmount));
      newCount := precisionDigitsCount - shiftAmount;
      PowAdd(2, shiftAmount, newCount);
      TwoCuts(input.f as int, Pow(2, shiftAmount), Pow(2, newCount));
      output := DiyFp((input.f as int / Pow(2, shiftAmount)) as uint64, input.e + shiftAmount);
      newError := (error as int / Pow(2, shiftAmount)) as uint64 + 1 + DENOMINATOR;
    }
  }

  /** Rounds to the precision of the double; exact means that the error could not have changed the result, and is only
      denied to numbers next to a half-way point. */
  method RoundInput(inputIn: DiyFp, errorIn: uint64, ghost x: real) returns (result: Double, exact: bool)
    requires inputIn.f as int >= TWO63 && 0 < errorIn <= 400 && x >= 0.0 && Near(x, inputIn, errorIn as int)
    ensures CorrectOrBelow(x, result)
    ensures exact && (inputIn.e == -1139 ==> x <= Exp(2, -1075)) ==> RoundsTo(x, result)
    ensures !exact ==> NearTie(x, result)
  {
    hide Exp, Pow, Near, CorrectOrBelow, RoundsTo, Placed, Encodes, NearTie;
    var orderOfMagnitude := 64 + inputIn.e;
    var effectiveSignificandSize := SignificandSizeForOrderOfMagnitude(orderOfMagnitude);
    var precisionDigitsCount := 64 - effectiveSignificandSize;
    var input, error, count := MakeRoom(inputIn, errorIn, precisionDigitsCount, x);
    ghost var n, m, p := input.f as int / Pow(2, count), input.f as int % Pow(2, count), Pow(2, count);
    CountBounds(count);
    QuotientParts(input.f as int, Pow(2, count));
    if orderOfMagnitude >= DENORMAL_EXPONENT { KeptBits(inputIn.f as int, inputIn.e, precisionDigitsCount); }
    var precisionBits: uint64 := (input.f as int % Pow(2, count)) as uint64 * DENOMINATOR;
    var halfWay: uint64 := Pow(2, count - 1) as uint64 * DENOMINATOR;
    KeptBelow(input.f as int, count);
    var roundedInput := DiyFp((input.f as int / Pow(2, count)) as uint64, input.e + count);
    if precisionBits >= halfWay + error {
      roundedInput := DiyFp(roundedInput.f + 1, roundedInput.e);
    }
    var word := DiyFpToUint64(roundedInput);
    result := Double(word);
    exact := !(halfWay - error < precisionBits < halfWay + error);
    if orderOfMagnitude < DENORMAL_EXPONENT {
      TinyKept(inputIn.f as int, precisionDigitsCount);
      TinyRounds(x, inputIn, errorIn as int);
      assert result == Double(0);
      ZeroIsExempt(x);
    } else {
      PlacedEncodes(n, input.e + count, roundedInput);
      if precisionBits >= halfWay + error {
        ClearlyAbove(x, input, error as int, n, m, count, result);
        CorrectIsEither(x, result);
      } else if halfWay - error < precisionBits {
        CloseToHalf(x, input, error as int, n, m, count, result);
        CloseIsNearTie(x, input, error as int, n, m, count, result);
      } else {
        ClearlyBelow(x, input, error as int, n, m, count, result);
        CorrectIsEither(x, result);
      }
    }
  }

  lemma {:induction false} CorrectIsEither(x: real, d: Double)
    requires RoundsTo(x, d)
    ensures CorrectOrBelow(x, d)
  {
    hide RoundsTo;
  }

  lemma {:induction false} CountBounds(count: nat)
    requires 11 <= count <= 60
    ensures 2048 <= Pow(2, count) == 2 * Pow(2, count - 1) <= 0x1000_0000_0000_0000
  {
    hide Pow;
    TwoPowers();
    PowMono(2, 11, count);
    PowMono(2, count, 60);
    PowAdd(2, 1, count - 1);
    PowAdd(2, 53, 7);
    Seven();
    PowBasics(2);
  }

  lemma {:induction false} Seven()
    ensures Pow(2, 7) == 128
  {
  }

  lemma {:induction false} KeptBelow(f: nat, count: nat)
    requires f < TWO64 && 11 <= count <= 60
    ensures f / Pow(2, count) < 0x20_0000_0000_0000
  {
    hide Pow;
    CountBounds(count);
    QuotientParts(f, Pow(2, count));
    MulMono(2048, Pow(2, count), f / Pow(2, count));
  }

  lemma {:induction false} TinyKept(f: nat, count: nat)
    requires f < TWO64 && count == 64
    ensures f / Pow(2, count) == 0
  {
    hide Pow;
    Pow2Word(count);
  }

  lemma {:induction false} PlacedEncodes(n: int, e: int, rounded: DiyFp)
    requires Placed(n, e) && rounded.e == e && (rounded.f as int == n || rounded.f as int == n + 1)
    ensures (rounded.e >= DENORMAL_EXPONENT && HIDDEN_BIT <= rounded.f <= 2 * HIDDEN_BIT)
         || (rounded.e == DENORMAL_EXPONENT && rounded.f <= HIDDEN_BIT)
  {
  }
}
