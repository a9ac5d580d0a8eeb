/** No double with an odd significand is a power of ten, so the counted modes never see numerator == denominator
    there. */
module OddPowers {
  import opened Arith
  import opened RealPowers
  import opened Ieee
  import opened DecimalRounding
  import opened Powers

  lemma {:induction false} TwoPowerNotFive(n: nat)
    ensures Pow(2, n) % 5 != 0
  {
    if n > 0 { TwoPowerNotFive(n - 1); }
  }

  lemma {:induction false} FivePowerOdd(n: nat)
    ensures Pow(5, n) % 2 == 1
  {
    if n > 0 { FivePowerOdd(n - 1); }
  }

  lemma {:induction false} PositivePowerEven(n: nat, m: int)
    requires n > 0
    ensures (m * Pow(2, n)) % 2 == 0
  {
    assert m * Pow(2, n) == 2 * (m * Pow(2, n - 1));
  }

  /** An odd multiple of a power of two that is a power of ten is a power of five. */
  lemma {:induction false} OddPartOfTen(f: nat, e: nat, k: nat)
    requires f % 2 == 1 && f * Pow(2, e) == Pow(10, k)
    ensures e == k && f == Pow(5, k)
  {
    hide Pow;
    PowMul(2, 5, k);
    FivePowerOdd(k);
    if e > k {
      PowAdd(2, e - k, k);
      Move(f, Pow(2, e - k), Pow(2, k), Pow(5, k));
      PositivePowerEven(e - k, f);
    } else {
      PowAdd(2, k - e, e);
      Move(Pow(5, k), Pow(2, k - e), Pow(2, e), f);
      if k > e { PositivePowerEven(k - e, Pow(5, k)); }
    }
    if e == k { PowBasics(2); }
  }

  lemma {:induction false} Move(a: nat, x: nat, y: nat, b: nat)
    requires y > 0 && a * (x * y) == y * b
    ensures a * x == b
  {
    assert (a * x) * y == b * y;
    MulCancelEq(a * x, b, y);
  }

  /** Between 2^52 and 2^53 there is no power of five. */
  lemma {:induction false} NoFivePower(k: nat)
    ensures !(0x10_0000_0000_0000 <= Pow(5, k) < 0x20_0000_0000_0000)
  {
    hide Pow;
    PowBasics(5);
    Five11();
    PowAdd(5, 11, 11);
    PowAdd(5, 22, 1);
    if k <= 22 { PowMono(5, k, 22); } else { PowMono(5, 23, k); }
  }

  lemma {:induction false} Five11()
    ensures Pow(5, 11) == 48828125
  {
    assert Pow(5, 5) == 3125;
    PowAdd(5, 5, 5);
    PowAdd(5, 10, 1);
  }

  lemma {:induction false} OddIsNoPowerOfTen(w: Double, k: int)
    requires w.Finite() && !w.IsEven()
    ensures w.Value() != Exp(10, k)
  {
    hide Pow, Exp, Double.Exponent, Double.Significand;
    if w.Value() == Exp(10, k) {
      var f, e := w.Significand() as int, w.Exponent();
      if e < 0 && k >= 0 {
        ExpNat(10, k);
        ExpNat(2, -e);
        ExpNeg(2, e);
        OverPower(f, Exp(2, e), Pow(2, -e), Pow(10, k));
        PositivePowerEven(-e, Pow(10, k));
      } else if e < 0 {
        ExpNat(10, -k);
        ExpNeg(10, k);
        ExpNat(2, -e);
        ExpNeg(2, e);
        OverBoth(f, Exp(2, e), Pow(2, -e), Exp(10, k), Pow(10, -k));
        TenMultiple(f, -k);
        TwoPowerNotFive(-e);
      } else {
        OddWhole(w, k);
      }
    }
  }

  lemma {:induction false} OddWhole(w: Double, k: int)
    requires w.Finite() && !w.IsEven() && w.Exponent() >= 0
    ensures w.Value() != Exp(10, k)
  {
    hide Pow, Exp;
    var f, e := w.Significand() as int, w.Exponent();
    ExpNat(2, e);
    CastProduct(f, Pow(2, e));
    MulMono(1, f, Pow(2, e));
    if w.Value() == Exp(10, k) {
      if k >= 0 {
        ExpNat(10, k);
        OddPartOfTen(f, e, k);
        NoFivePower(k);
      } else {
        ExpMono(10, k, 0);
        ExpZero(10);
        assert false;
      }
    }
  }

  lemma {:induction false} OverPower(f: nat, x: real, y: nat, t: nat)
    requires f as real * x == t as real && x * y as real == 1.0
    ensures f == t * y
  {
    CastProduct(t, y);
    assert (f as real * x) * y as real == f as real * (x * y as real);
  }

  lemma {:induction false} OverBoth(f: nat, x: real, y: nat, z: real, t: nat)
    requires f as real * x == z && x * y as real == 1.0 && z * t as real == 1.0
    ensures f * t == y
  {
    CastProduct(f, t);
    var a, c, d := f as real, y as real, t as real;
    assert a == z * c by { assert (a * x) * c == a * (x * c); }
    assert a * d == (z * d) * c;
  }

  lemma {:induction false} TenMultiple(f: int, k: nat)
    requires k > 0
    ensures (f * Pow(10, k)) % 5 == 0
  {
    assert f * Pow(10, k) == 5 * (2 * (f * Pow(10, k - 1)));
  }
}
