/** The estimate of the decimal exponent, from a multiplication in floating point that is only nearly exact. */
module PowerEstimate {
  import opened Arith
  import opened RealPowers
  import opened Powers
  import opened Ieee
  import opened DecimalRounding
  import opened DtoaStart
  import opened DtoaFixup

  const LOG10_OF_2: real := 0.30102999566398114

  /** What the floating-point expression may differ from the product, including the deliberate decrement of 1e-10. */
  const LEAST_DECREMENT: real := 0.00000000005
  const MOST_DECREMENT: real := 0.0000000002

  /** The exponent of f * 2^e once f has 53 bits. */
  method NormalizedExponent(significandIn: uint64, exponentIn: int) returns (exponent: int)
    requires 0 < significandIn < 2 * HIDDEN_BIT
    ensures Exp(2, exponent + 52) <= significandIn as real * Exp(2, exponentIn)
    ensures (significandIn as int + 1) as real * Exp(2, exponentIn) <= Exp(2, exponent + 53)
  {
    hide Exp, Pow;
    var significand := significandIn;
    exponent := exponentIn;
    PowBasics(2);
    while significand / HIDDEN_BIT % 2 == 0
      invariant 0 < significand < 2 * HIDDEN_BIT && exponent <= exponentIn
      invariant significand as int == significandIn as int * Pow(2, exponentIn - exponent)
      decreases 2 * HIDDEN_BIT - significand
    {
      PowStep2(exponentIn - exponent, significandIn as int);
      significand := significand * 2;
      exponent := exponent - 1;
    }
    ghost var f, k := significandIn as int, exponentIn - exponent;
    NormalizedFloor(f, significand as int, k, exponentIn);
    RoomAbove(f, k);
    NormalizedRoom(f, (f + 1) * Pow(2, k), k, exponentIn);
  }

  lemma {:induction false} PowStep2(k: nat, f: int)
    ensures f * Pow(2, k + 1) == 2 * (f * Pow(2, k))
  {
  }

  lemma {:induction false} NormalizedFloor(f: nat, g: nat, k: nat, e: int)
    requires g == f * Pow(2, k) && 0x10_0000_0000_0000 <= g
    ensures Exp(2, e - k + 52) <= f as real * Exp(2, e)
  {
    hide Exp, Pow;
    ExpAdd(2, e - k, k);
    ExpNat(2, k);
    BinaryUnits(e - k);
    Regained(f, Pow(2, k), Exp(2, e - k));
    Scale(0x10_0000_0000_0000, g, Exp(2, e - k));
  }

  lemma {:induction false} NormalizedRoom(f: nat, h: nat, k: nat, e: int)
    requires h == (f + 1) * Pow(2, k) && h <= 0x20_0000_0000_0000
    ensures (f + 1) as real * Exp(2, e) <= Exp(2, e - k + 53)
  {
    hide Exp, Pow;
    ExpAdd(2, e - k, k);
    ExpNat(2, k);
    BinaryUnits(e - k);
    Regained(f + 1, Pow(2, k), Exp(2, e - k));
    Scale(h, 0x20_0000_0000_0000, Exp(2, e - k));
  }

  lemma {:induction false} Regained(f: nat, p: nat, u: real)
    ensures f as real * (u * p as real) == (f * p) as real * u
  {
    CastProduct(f, p);
  }

  lemma {:induction false} BinaryUnits(e: int)
    ensures Exp(2, e + 52) == 0x10_0000_0000_0000 as real * Exp(2, e)
    ensures Exp(2, e + 53) == 0x20_0000_0000_0000 as real * Exp(2, e)
  {
    hide Exp, Pow;
    ExpAdd(2, e, 52);
    ExpNat(2, 52);
    TwoTo52();
    ExpStep(2, e + 52);
  }

  lemma {:induction false} Scale(a: int, b: int, u: real)
    requires a <= b && u > 0.0
    ensures a as real * u <= b as real * u
  {
    ScaleOrder(b as real, a as real, u);
  }

  /** f * 2^k < 2^53 leaves room for f + 1. */
  lemma {:induction false} RoomAbove(f: nat, k: nat)
    requires f > 0 && f * Pow(2, k) < 0x20_0000_0000_0000
    ensures (f + 1) * Pow(2, k) <= 0x20_0000_0000_0000
  {
    hide Pow;
    if k > 53 {
      PowMono(2, 53, k);
      MulMono(1, f, Pow(2, k));
      TwoTo53();
      assert false;
    } else {
      PowAdd(2, 53 - k, k);
      TwoTo53();
      MulCancel(f, Pow(2, 53 - k), Pow(2, k));
      MulMono(f + 1, Pow(2, 53 - k), Pow(2, k));
    }
  }

  lemma {:induction false} TwoTo53()
    ensures Pow(2, 53) == 0x20_0000_0000_0000
  {
    hide Pow;
    TwoTo52();
    PowBasics(2);
    PowAdd(2, 52, 1);
  }

  /** a^p <= b^q carries over to larger exponents in the same proportion. */
  lemma {:induction false} Raised(a: nat, p: int, b: nat, q: int, n: nat)
    requires a > 0 && b > 0 && Exp(a, p) <= Exp(b, q)
    ensures Exp(a, p * n) <= Exp(b, q * n)
    decreases n
  {
    hide Exp, Pow;
    if n == 0 {
      assert p * n == 0 && q * n == 0;
      ExpZero(a);
      ExpZero(b);
    } else {
      Raised(a, p, b, q, n - 1);
      ExpAdd(a, p * (n - 1), p);
      ExpAdd(b, q * (n - 1), q);
      assert p * n == p * (n - 1) + p && q * n == q * (n - 1) + q;
      ProductOrder(Exp(a, p * (n - 1)), Exp(b, q * (n - 1)), Exp(a, p), Exp(b, q));
    }
  }

  lemma {:induction false} ProductOrder(x: real, x': real, y: real, y': real)
    requires 0.0 < x <= x' && 0.0 < y <= y'
    ensures x * y <= x' * y'
    ensures x < x' ==> x * y < x' * y'
  {
    if x < x' { ScaleOrder(x, x', y); }
    if y < y' { ScaleOrder(y, y', x'); }
  }

  /** If a^p <= b^q then a^m <= b^n for every m / n not above p / q. */
  lemma {:induction false} Proportion(a: nat, p: nat, b: nat, q: nat, m: int, n: nat)
    requires a > 1 && b > 1 && q > 0 && Exp(a, p) <= Exp(b, q) && q * m <= p * n
    ensures Exp(a, m) <= Exp(b, n)
  {
    hide Exp, Pow;
    if Exp(a, m) > Exp(b, n) {
      RaisedStrictly(b, n, a, m, q);
      Raised(a, p, b, q, n);
      Flip(m, n, q);
      if q * m < p * n { ExpMono(a, q * m, p * n); }
      assert false;
    }
  }

  lemma {:induction false} Flip(m: int, n: int, q: int)
    ensures m * q == q * m && n * q == q * n
  {
  }

  lemma {:induction false} RaisedStrictly(a: nat, p: int, b: nat, q: int, n: nat)
    requires a > 0 && b > 0 && Exp(a, p) < Exp(b, q) && n > 0
    ensures Exp(a, p * n) < Exp(b, q * n)
  {
    hide Exp, Pow;
    Raised(a, p, b, q, n - 1);
    ExpAdd(a, p, p * (n - 1));
    ExpAdd(b, q, q * (n - 1));
    assert p * n == p + p * (n - 1) && q * n == q + q * (n - 1);
    ProductOrder(Exp(a, p), Exp(b, q), Exp(a, p * (n - 1)), Exp(b, q * (n - 1)));
  }

  /** Inverting both sides. */
  lemma {:induction false} Inverted(a: nat, m: int, b: nat, n: int)
    requires a > 0 && b > 0 && Exp(b, -n) <= Exp(a, -m)
    ensures Exp(a, m) <= Exp(b, n)
  {
    hide Exp, Pow;
    ExpNeg(a, m);
    ExpNeg(b, n);
    if Exp(a, m) > Exp(b, n) { InverseReal(Exp(b, n), Exp(b, -n), Exp(a, m), Exp(a, -m)); }
  }

  /** Two neighbouring fractions around log10(2): 205/681 below and 146/485 above. */
  lemma {:induction false} Convergents()
    ensures Exp(10, 205) <= Exp(2, 681)
    ensures Exp(2, 485) <= Exp(10, 146)
  {
    hide Exp, Pow;
    ExpNat(10, 205);
    ExpNat(2, 681);
    ExpNat(2, 485);
    ExpNat(10, 146);
    PowMul(2, 5, 205);
    PowMul(2, 5, 146);
    PowAdd(2, 205, 476);
    PowAdd(2, 146, 339);
    FiveTo205();
    FiveTo146();
    MulMono(Pow(5, 205), Pow(2, 476), Pow(2, 205));
    MulMono(Pow(2, 339), Pow(5, 146), Pow(2, 146));
  }

  lemma {:induction false} FiveTo205()
    ensures Pow(5, 205) <= Pow(2, 476)
  {
    hide Pow;
    PowPow(5, 41, 5);
    PowPow(2, 80, 5);
    Five41();
    PowBaseMono(Pow(5, 41), 37616 * Pow(2, 80), 5);
    PowMul(37616, Pow(2, 80), 5);
    PowAdd(2, 76, 400);
    FifthPower();
    MulMono(Pow(37616, 5), Pow(2, 76), Pow(2, 400));
  }

  lemma {:induction false} FifthPower()
    ensures Pow(37616, 5) <= Pow(2, 76)
  {
    assert Pow(37616, 5) == 37616 * 37616 * 37616 * 37616 * 37616 by { Fifth(37616); }
    hide Pow;
    TwoTo38();
    PowAdd(2, 38, 38);
  }

  lemma {:induction false} Fifth(b: nat)
    ensures Pow(b, 5) == b * b * b * b * b
  {
    PowAdd(b, 2, 2);
    PowAdd(b, 4, 1);
    assert Pow(b, 2) == b * b;
  }

  lemma {:induction false} TwoTo38()
    ensures Pow(2, 38) == 0x40_0000_0000
  {
    assert Pow(2, 19) == 0x8_0000 by { Pow19(); }
    PowAdd(2, 19, 19);
  }

  lemma {:induction false} Pow19()
    ensures Pow(2, 19) == 0x8_0000
  {
    assert Pow(2, 9) == 512;
    PowAdd(2, 9, 9);
    PowAdd(2, 18, 1);
  }

  lemma {:induction false} Five41()
    ensures Pow(5, 41) <= 37616 * Pow(2, 80)
  {
    hide Pow;
    OddBasis();
    PowAdd(5, 11, 11);
    PowAdd(5, 22, 11);
    PowAdd(5, 33, 8);
    PowAdd(2, 40, 40);
  }

  lemma {:induction false} OddBasis()
    ensures Pow(5, 11) == 48828125 && Pow(5, 8) == 390625 && Pow(5, 7) == 78125 && Pow(2, 40) == 0x100_0000_0000
  {
    assert Pow(5, 4) == 625;
    PowAdd(5, 4, 3);
    PowAdd(5, 4, 4);
    PowAdd(5, 8, 3);
    TwoTo38();
    PowAdd(2, 38, 2);
  }

  lemma {:induction false} FiveTo146()
    ensures Pow(2, 339) <= Pow(5, 146)
  {
    hide Pow;
    OddBasis();
    PowAdd(5, 11, 11);
    PowAdd(5, 22, 22);
    PowAdd(5, 44, 22);
    PowAdd(5, 66, 7);
    PowAdd(5, 73, 73);
    TwoTo150();
    PowAdd(2, 39, 300);
    PowAdd(2, 150, 150);
    TwoTo38();
    PowBasics(2);
    PowAdd(2, 38, 1);
    SquareBelow(Pow(5, 73), Pow(2, 150), Pow(2, 39));
  }

  lemma {:induction false} SquareBelow(x: nat, p: nat, q: nat)
    requires 741841 * p <= x && q <= 741841 * 741841
    ensures q * (p * p) <= x * x
  {
    MulMono(741841 * p, x, 741841 * p);
    MulMono(741841 * p, x, x);
    assert (741841 * p) * (741841 * p) == (741841 * 741841) * (p * p);
    MulMono(q, 741841 * 741841, p * p);
  }

  lemma {:induction false} TwoTo150()
    ensures Pow(2, 150) == 0x40_0000_0000 * 0x40_0000_0000 * 0x40_0000_0000 * 0x10_0000_0000
  {
    hide Pow;
    TwoTo38();
    TwoTo36();
    PowAdd(2, 38, 38);
    PowAdd(2, 76, 38);
    PowAdd(2, 114, 36);
  }

  lemma {:induction false} TwoTo36()
    ensures Pow(2, 36) == 0x10_0000_0000
  {
    assert Pow(2, 9) == 512;
    PowAdd(2, 9, 9);
    PowAdd(2, 18, 18);
  }

  ghost predicate NearProduct(n: int, product: real) {
    n as real * LOG10_OF_2 - MOST_DECREMENT <= product <= n as real * LOG10_OF_2 - LEAST_DECREMENT
  }

  /** The estimate does not overshoot: 10^(ep-1) <= 2^n. */
  lemma {:induction false} NotAbove(n: int, product: real, m: int)
    requires -1100 <= n <= 1100 && NearProduct(n, product) && m as real < product
    ensures Exp(10, m) <= Exp(2, n)
  {
    hide Exp, Pow;
    Convergents();
    if m >= 0 {
      assert 485 * m < 146 * n && n > 0;
      Proportion(10, 205, 2, 681, m, n);
    } else {
      assert n < 0 ==> 681 * m < 205 * n;
      Proportion(2, 485, 10, 146, -n, -m);
      Inverted(10, m, 2, n);
    }
  }

  /** It undershoots by one at most: 2^(n+1) <= 10^(ep+1). */
  lemma {:induction false} NotFarBelow(n: int, product: real, ep: int)
    requires -1100 <= n <= 1100 && NearProduct(n, product) && product <= ep as real
    ensures Exp(2, n + 1) <= Exp(10, ep + 1)
  {
    hide Exp, Pow;
    Convergents();
    if ep + 1 >= 0 {
      Proportion(2, 485, 10, 146, n + 1, ep + 1);
    } else {
      Proportion(10, 205, 2, 681, -(ep + 1), -(n + 1));
      Inverted(2, n + 1, 10, ep + 1);
    }
  }

  /** The smallest integer not below x. */
  function Ceil(x: real): int {
    -((-x).Floor)
  }

  /** The documented contract of the estimate holds for every finite number, despite the rounding of the product. */
  lemma {:induction false} EstimateMeetsContract(w: Double, exponent: int, product: real)
    requires 0 < w.d64 && w.Finite()
    requires Exp(2, exponent + 52) <= w.Value()
    requires (w.Significand() as int + 1) as real * Exp(2, w.Exponent()) <= Exp(2, exponent + 53)
    requires NearProduct(exponent + 52, product)
    ensures EstimateContract(w, Ceil(product))
  {
    hide Exp, Pow, Double.Value, DiyFp.Value, Double.UpperBoundary, Double.Exponent, Double.Significand;
    var n, ep := exponent + 52, Ceil(product);
    BinaryRange(w, n);
    NotAbove(n, product, ep - 1);
    NotFarBelow(n, product, ep);
    BoundaryBelowNext(w);
  }

  lemma {:induction false} BoundaryBelowNext(w: Double)
    requires w.Finite()
    ensures w.UpperBoundary().Value() < (w.Significand() as int + 1) as real * Exp(2, w.Exponent())
  {
    hide Exp, Pow, Double.UpperBoundary, DiyFp.Value, Double.Exponent, Double.Significand;
    BoundaryIsMidpoint(w);
    ExpGrows(2, w.Exponent() - 1);
    NextUnit(w.Significand() as int, Exp(2, w.Exponent()));
  }

  lemma {:induction false} BinaryRange(w: Double, n: int)
    requires 0 < w.d64 && w.Finite() && Exp(2, n) <= w.Value()
    requires (w.Significand() as int + 1) as real * Exp(2, w.Exponent()) <= Exp(2, n + 1)
    ensures -1100 <= n <= 1100
  {
    hide Exp, Pow, Double.Exponent, Double.Significand, Double.Value;
    BelowInfinity(w);
    if n > 1100 { ExpMono(2, 1024, n); }
    LeastExponent(w);
    AtLeastUnit(w.Significand() as int + 1, Exp(2, w.Exponent()));
    if n < -1100 { ExpMono(2, n + 1, w.Exponent()); }
  }
}
