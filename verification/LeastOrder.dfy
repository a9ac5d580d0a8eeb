/** Around half the least denormal the tracked error alone does not settle the result; the arithmetic itself does. */
module LeastOrder {
  import opened Arith
  import opened RealPowers
  import opened Powers
  import opened Ieee
  import opened DecimalRounding
  import opened PowerEstimate
  import opened StrtodTrim
  import opened DiyFps
  import opened RoundToDouble
  import opened FastStrtod

  /** The first significand of 19 digits above 2^-1075 * 10^342. */
  const FIRST_ABOVE: nat := 2470328229206232721

  lemma {:induction false} Five38()
    ensures Pow(5, 38) == 19073486328125 * 19073486328125
  {
    hide Pow;
    OddBasis();
    PowAdd(5, 11, 8);
    PowAdd(5, 19, 19);
  }

  lemma {:induction false} Five342()
    ensures var a: nat := 19073486328125 * 19073486328125; Pow(5, 342) == (a * a * a) * (a * a * a) * (a * a * a)
  {
    hide Pow;
    Five38();
    PowAdd(5, 38, 38);
    PowAdd(5, 76, 38);
    PowAdd(5, 114, 114);
    PowAdd(5, 228, 114);
  }

  lemma {:induction false} Two733()
    ensures var b: nat := 0x40_0000_0000_0000_0000_0000_0000_0000_0000_0000; Pow(2, 150) == b
    ensures var b: nat := 0x40_0000_0000_0000_0000_0000_0000_0000_0000_0000;
            Pow(2, 733) == b * b * b * b * 0x2_0000_0000 * 0x10_0000_0000_0000_0000_0000_0000
  {
    hide Pow;
    TwoTo150();
    TwoTo38();
    TwoTo36();
    PowAdd(2, 150, 150);
    PowAdd(2, 300, 150);
    PowAdd(2, 450, 150);
    PowAdd(2, 600, 38);
    PowAdd(2, 638, 38);
    PowAdd(2, 676, 38);
    PowAdd(2, 714, 19);
    Pow19();
  }

  /** 5^342 / 2^733 lies in the half unit below the first significand above, and that far from the next one. */
  lemma {:induction false} Bracket()
    ensures 2 * Pow(5, 342) >= (2 * FIRST_ABOVE - 1) * Pow(2, 733)
    ensures Pow(5, 342) * (2 * TWO64 + 13) <= (FIRST_ABOVE + 1) * (2 * TWO64) * Pow(2, 733)
  {
    hide Pow;
    Five342();
    Two733();
  }

  /** Half the least denormal, scaled by 10^342. */
  ghost function Tau(): real {
    Exp(2, -1075) * Exp(10, 342)
  }

  lemma {:induction false} TauBounds()
    ensures FIRST_ABOVE as real - 0.5 <= Tau()
    ensures Tau() * (TWO64 as real + 6.5) <= (FIRST_ABOVE + 1) as real * TWO64 as real
  {
    hide Pow, Exp;
    Bracket();
    TauTimes();
    var w, f := Pow(2, 733), Pow(5, 342);
    Bracket1(Tau(), w as real, f as real, FIRST_ABOVE as real, w, f);
    Bracket2(Tau(), w as real, f as real, w, f);
  }

  lemma {:induction false} TauTimes()
    ensures Tau() * Pow(2, 733) as real == Pow(5, 342) as real
  {
    hide Pow, Exp, Tau;
    TauIsQuotient();
    ExpNeg(2, 733);
    ExpNat(2, 733);
    Undo(Tau(), Pow(5, 342) as real, Exp(2, -733), Exp(2, 733));
  }

  lemma {:induction false} TauIsQuotient()
    ensures Tau() == Pow(5, 342) as real * Exp(2, -733)
  {
    hide Pow, Exp;
    TenSplit(342);
    ExpAdd(2, -1075, 342);
    Gather(Exp(2, -1075), Exp(2, 342), Pow(5, 342) as real, Exp(2, -733));
  }

  lemma {:induction false} Gather(a: real, b: real, f: real, c: real)
    requires a * b == c
    ensures a * (b * f) == f * c
  {
    assert a * (b * f) == f * (a * b);
  }

  lemma {:induction false} Undo(p: real, f: real, c: real, d: real)
    requires p == f * c && d * c == 1.0
    ensures p * d == f
  {
    Regroup1(f, c, d);
  }

  lemma {:induction false} Replaced(p: real, q: real, f: real)
    requires p == q
    ensures p * f == q * f && p * f == f * q
  {
  }

  lemma {:induction false} Bracket1(tau: real, w: real, f: real, n: real, wi: nat, fi: nat)
    requires tau * w == f && wi > 0 && w == wi as real && f == fi as real && n == FIRST_ABOVE as real
    requires 2 * fi >= (2 * FIRST_ABOVE - 1) * wi
    ensures n - 0.5 <= tau
  {
    assert ((2 * FIRST_ABOVE - 1) * wi) as real == (2.0 * n - 1.0) * w;
    assert (2 * fi) as real >= ((2 * FIRST_ABOVE - 1) * wi) as real;
    assert 2.0 * ((n - 0.5) * w) == (2.0 * n - 1.0) * w;
    AtMost(n - 0.5, tau, w, (n - 0.5) * w, tau * w);
  }

  lemma {:induction false} Bracket2(tau: real, w: real, f: real, wi: nat, fi: nat)
    requires tau * w == f && wi > 0 && w == wi as real && f == fi as real
    requires fi * (2 * TWO64 + 13) <= (FIRST_ABOVE + 1) * (2 * TWO64) * wi
    ensures tau * (TWO64 as real + 6.5) <= (FIRST_ABOVE + 1) as real * TWO64 as real
  {
    var bound := (FIRST_ABOVE + 1) as real * TWO64 as real;
    assert (fi * (2 * TWO64 + 13)) as real == f * (2.0 * TWO64 as real + 13.0);
    assert ((FIRST_ABOVE + 1) * (2 * TWO64) * wi) as real == 2.0 * (bound * w);
    assert (tau * (TWO64 as real + 6.5)) * w == f * (TWO64 as real + 6.5);
    AtMost(tau * (TWO64 as real + 6.5), bound, w, f * (TWO64 as real + 6.5), bound * w);
  }

  /** What is known when the last normalization ends at the order below that of the least denormal. */
  lemma {:induction false} JustBelow(y: real, input: DiyFp)
    requires Near(y, input, 52) && input.e == -1139
    ensures y * Exp(10, 342) < (FIRST_ABOVE + 1) as real
  {
    hide Pow, Exp;
    TauBounds();
    ExpNeg(2, -1139);
    ExpAdd(2, -1139, 64);
    ExpNat(2, 64);
    Pow2Word(64);
    var u, t := Exp(2, -1139), Exp(10, 342);
    BelowWord(y * Exp(2, 1139), input.f as real);
    assert u * Exp(2, 1139) == 1.0;
    Unscale(y, Exp(2, 1139), u);
    BelowChain(y * Exp(2, 1139), y, u, t, Exp(2, -1075), TWO64 as real + 6.5, TWO64 as real, (FIRST_ABOVE + 1) as real);
  }

  lemma {:induction false} BelowChain(s: real, y: real, u: real, t: real, h: real, b: real, w: real, n: real)
    requires s < b && y == s * u && u * w == h && (h * t) * b <= n * w && u > 0.0 && t > 0.0 && w > 0.0
    ensures y * t < n
  {
    ScaleOrder(s, b, u);
    ScaleOrder(s * u, b * u, t);
    BelowUnits3(b, u, t, w);
    Replaced(u * w, h, t);
    Replaced((u * w) * t, h * t, b);
    AtMost((b * u) * t, n, w, ((b * u) * t) * w, n * w);
  }

  lemma {:induction false} BelowUnits3(b: real, u: real, t: real, w: real)
    ensures ((b * u) * t) * w == ((u * w) * t) * b
  {
  }

  lemma {:induction false} BelowWord(scaled: real, f: real)
    requires f <= 0xFFFF_FFFF_FFFF_FFFF as real && 8.0 * (scaled - f) < 52.0
    ensures scaled < TWO64 as real + 6.5
  {
  }

  /** Only one input of 19 digits can be above half the least denormal and still be computed to be below it. */
  lemma {:induction false} OnlyFirstAbove(d: nat, k: int, x: real, y: real, rounded: bool)
    requires 0 < d < TWO64 && y == ScaledByTens(d as real, k) && x > Exp(2, -1075)
    requires y * Exp(10, 342) < (FIRST_ABOVE + 1) as real
    requires if rounded then d > READ_LIMIT as int && x <= ScaledByTens(d as real + 0.5, k) else x == y
    ensures d == FIRST_ABOVE && k == -342
  {
    hide Pow, Exp;
    TauBounds();
    ExpAdd(10, k, 342);
    Scaled342(d as real, x, Exp(10, 342), Exp(10, k + 342), Exp(10, k), Exp(2, -1075), rounded);
    ScaledCandidates(d, k + 342, x * Exp(10, 342), rounded);
  }

  lemma {:induction false} Scaled342(d: real, x: real, t: real, e: real, p: real, h: real, rounded: bool)
    requires e == p * t && x > h && t > 0.0
    requires if rounded then x <= (d + 0.5) * p else x == d * p
    ensures x * t > h * t && (d * p) * t == d * e
    ensures if rounded then x * t <= (d + 0.5) * e else x * t == d * e
  {
    ScaledTimes(d, p, t, e);
    ScaledTimes(d + 0.5, p, t, e);
    ScaledBounds(x, h, t, (d + 0.5) * p);
    if !rounded { Replaced(x, d * p, t); }
  }

  lemma {:induction false} ScaledBounds(x: real, low: real, t: real, high: real)
    requires x > low && t > 0.0
    ensures x * t > low * t && (x <= high ==> x * t <= high * t)
  {
    ScaleOrder(low, x, t);
    ScaleOrder(high, x, t);
  }

  lemma {:induction false} ScaledTimes(d: real, p: real, t: real, e: real)
    requires e == p * t
    ensures (d * p) * t == d * e
  {
  }

  lemma {:induction false} ScaledCandidates(d: nat, j: int, x: real, rounded: bool)
    requires 0 < d < TWO64 && x > FIRST_ABOVE as real - 0.5
    requires d as real * Exp(10, j) < (FIRST_ABOVE + 1) as real
    requires if rounded then d > READ_LIMIT as int && x <= (d as real + 0.5) * Exp(10, j)
             else x == d as real * Exp(10, j)
    ensures d == FIRST_ABOVE && j == 0
  {
    hide Pow, Exp;
    ExpZero(10);
    if j < 0 {
      Tenth();
      if j < -1 { ExpMono(10, j, -1); }
      TenthOf(d as real, Exp(10, j));
      assert false;
    } else if j > 0 {
      ExpNat(10, j);
      PowAdd(10, 1, j - 1);
      PowBasics(10);
      CastProduct(d, Pow(10, j));
      TensMultiple(d, Pow(10, j - 1));
      WholeCandidate(d * Pow(10, j), x, rounded);
      assert false;
    }
  }

  lemma {:induction false} WholeCandidate(n: nat, x: real, rounded: bool)
    requires n as real < (FIRST_ABOVE + 1) as real && (!rounded ==> x == n as real && x > FIRST_ABOVE as real - 0.5)
    ensures n <= FIRST_ABOVE && (!rounded ==> n == FIRST_ABOVE)
  {
  }

  lemma {:induction false} TenthOf(d: real, e: real)
    requires 0.0 <= d < TWO64 as real && 0.0 < e <= 0.1
    ensures (d + 0.5) * e < FIRST_ABOVE as real - 0.5 && d * e < FIRST_ABOVE as real - 0.5
  {
    NonNegative(d + 0.5, 0.1 - e);
    assert (d + 0.5) * (0.1 - e) == 0.1 * (d + 0.5) - (d + 0.5) * e;
    assert (d + 0.5) * e == d * e + 0.5 * e;
  }

  /** A multiple of ten is not the first significand above. */
  lemma {:induction false} TensMultiple(d: nat, q: nat)
    requires q > 0
    ensures d * (10 * q) != FIRST_ABOVE && d * (10 * q) >= 10 * d
  {
    assert d * (10 * q) == 10 * (d * q);
    MulMono(1, q, d);
  }

  /** For that input the 64-bit products come out as exactly half the least denormal. */
  lemma {:induction false} FirstAboveIsExact(read: DiyFp, input: DiyFp, adjusted: DiyFp, product: DiyFp, output: DiyFp)
    requires read == DiyFp(FIRST_ABOVE as uint64, 0) && IsShifted(input, read) && input.f as int >= TWO63
    requires IsProduct(adjusted, input, AdjustmentPowerOfTen(6))
    requires IsProduct(product, adjusted, DiyFp(0xfa8f_d5a0_081c_0288, -1220)) && IsShifted(output, product)
    ensures output.e == -1138
  {
    hide Pow;
    ShiftIsTwo(input, read);
    assert adjusted == DiyFp(0x82c7_30be_c1ca_c961, 18);
    assert product == DiyFp(0x8000_0000_0000_0000, -1138);
    NoShift(output, product);
  }

  lemma {:induction false} ShiftIsTwo(input: DiyFp, read: DiyFp)
    requires read == DiyFp(FIRST_ABOVE as uint64, 0) && IsShifted(input, read) && input.f as int >= TWO63
    ensures input.e == -2 && input.f as int == 4 * FIRST_ABOVE
  {
    hide Pow;
    Pow61();
    SmallShift(input, read, 61);
    SmallTwos();
    PowBasics(2);
    assert 0 - input.e == 0 || 0 - input.e == 1 || 0 - input.e == 2;
  }

  lemma {:induction false} NoShift(output: DiyFp, product: DiyFp)
    requires product.f as int == TWO63 && IsShifted(output, product)
    ensures output.e == product.e
  {
    hide Pow;
    Pow61();
    PowAdd(2, 61, 2);
    SmallTwos();
    SmallShift(output, product, 63);
  }

  /** At that order x is not above half the least denormal. */
  lemma {:induction false} NotAboveHalf(d: nat, k: int, x: real, input: DiyFp, rounded: bool)
    requires 0 < d < TWO64 && Near(ScaledByTens(d as real, k), input, 52) && input.e == -1139
    requires if rounded then d > READ_LIMIT as int && x <= ScaledByTens(d as real + 0.5, k)
             else x == ScaledByTens(d as real, k)
    requires !(d == FIRST_ABOVE && k == -342)
    ensures x <= Exp(2, -1075)
  {
    hide Pow, Exp, Near, ScaledByTens;
    JustBelow(ScaledByTens(d as real, k), input);
    if x > Exp(2, -1075) {
      OnlyFirstAbove(d, k, x, ScaledByTens(d as real, k), rounded);
    }
  }
}
