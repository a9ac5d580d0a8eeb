/** Integer powers of two and ten as reals, for exponents of either sign. */
module RealPowers {
  import opened Arith

  ghost function Exp(b: nat, e: int): (r: real)
    requires b > 0
    ensures r > 0.0
  {
    if e >= 0 then Pow(b, e) as real else 1.0 / (Pow(b, -e) as real)
  }

  lemma {:induction false} ExpStep(b: nat, e: int)
    requires b > 0
    ensures Exp(b, e + 1) == b as real * Exp(b, e)
  {
    if e >= 0 {
      CastProduct(b, Pow(b, e));
    } else {
      ExpStepNegative(b, -e - 1);
    }
  }

  lemma {:induction false} ExpStepNegative(b: nat, k: nat)
    requires b > 0
    ensures 1.0 / (Pow(b, k) as real) == b as real * (1.0 / (Pow(b, k + 1) as real))
  {
    CastProduct(b, Pow(b, k));
    Reciprocal(b as real, Pow(b, k) as real);
  }

  lemma {:induction false} CastProduct(a: int, b: int)
    ensures (a * b) as real == a as real * b as real
  {
  }

  lemma {:induction false} Reciprocal(a: real, p: real)
    requires a > 0.0 && p > 0.0
    ensures 1.0 / p == a * (1.0 / (a * p))
  {
    assert (a * (1.0 / (a * p))) * p == 1.0;
  }

  lemma {:induction false} ExpAdd(b: nat, m: int, n: int)
    requires b > 0
    ensures Exp(b, m + n) == Exp(b, m) * Exp(b, n)
    decreases if n < 0 then -n else n
  {
    hide Exp, Pow;
    if n > 0 {
      ExpAdd(b, m, n - 1);
      ExpStep(b, m + n - 1);
      ExpStep(b, n - 1);
      Commute(b as real, Exp(b, m), Exp(b, n - 1));
    } else if n < 0 {
      ExpAdd(b, m, n + 1);
      ExpStep(b, m + n);
      ExpStep(b, n);
      Commute(b as real, Exp(b, m), Exp(b, n));
      Cancel(b as real, Exp(b, m + n), Exp(b, m) * Exp(b, n));
    } else {
      ExpZero(b);
    }
  }

  lemma {:induction false} ExpZero(b: nat)
    requires b > 0
    ensures Exp(b, 0) == 1.0
  {
  }

  lemma {:induction false} Commute(a: real, x: real, y: real)
    ensures a * (x * y) == x * (a * y)
  {
  }

  lemma {:induction false} Cancel(a: real, x: real, y: real)
    requires a > 0.0 && a * x == a * y
    ensures x == y
  {
  }

  lemma {:induction false} ExpNat(b: nat, e: nat)
    requires b > 0
    ensures Exp(b, e) == Pow(b, e) as real
  {
  }

  lemma {:induction false} ExpNeg(b: nat, e: int)
    requires b > 0
    ensures Exp(b, e) * Exp(b, -e) == 1.0
  {
    ExpAdd(b, e, -e);
    ExpZero(b);
  }

  lemma {:induction false} ExpGrows(b: nat, e: int)
    requires b > 1
    ensures Exp(b, e) < Exp(b, e + 1)
  {
    ExpStep(b, e);
    assert b as real * Exp(b, e) > 1.0 * Exp(b, e);
  }

  lemma {:induction false} ExpMono(b: nat, m: int, n: int)
    requires b > 1 && m < n
    ensures Exp(b, m) < Exp(b, n)
    decreases n - m
  {
    hide Exp, Pow;
    ExpGrows(b, n - 1);
    if m < n - 1 { ExpMono(b, m, n - 1); }
  }

  lemma {:induction false} Tenth()
    ensures Exp(10, -1) == 0.1
  {
    assert Pow(10, 1) == 10;
  }

  lemma {:induction false} RealPositive(a: real, b: real)
    requires a > 0.0 && b > 0.0
    ensures a * b > 0.0
  {
  }

  lemma {:induction false} RealAssociate(a: real, b: real, c: real)
    ensures a * (b * c) == (a * b) * c
  {
  }

  lemma {:induction false} RealRegroup(a: real, b: real, c: real, d: real)
    ensures (a * b) * (c * d) == a * ((b * c) * d)
  {
  }

  /** Strictly less in one factor and not more in the other. */
  lemma {:induction false} RealProductBelow(a: real, b: real, x: real, y: real)
    requires 0.0 <= a < b && 0.0 <= x <= y && y > 0.0
    ensures 0.0 <= a * x < b * y
  {
    assert a * (y - x) >= 0.0;
    assert (b - a) * y > 0.0;
  }
}
