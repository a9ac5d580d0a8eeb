/** Powers, machine words and the small nonlinear facts the other modules share. */
module Arith {

  newtype uint16 = x: int | 0 <= x < 0x1_0000
  newtype uint32 = x: int | 0 <= x < 0x1_0000_0000
  newtype uint64 = x: int | 0 <= x < 0x1_0000_0000_0000_0000

  function Pow(b: nat, e: nat): (r: nat)
    ensures b > 0 ==> r > 0
  {
    if e == 0 then 1 else b * Pow(b, e - 1)
  }

  lemma {:induction false} PowAdd(b: nat, m: nat, n: nat)
    ensures Pow(b, m + n) == Pow(b, m) * Pow(b, n)
  {
    if m == 0 {
    } else {
      PowAdd(b, m - 1, n);
      assert Pow(b, m + n) == b * Pow(b, m - 1 + n);
    }
  }

  lemma {:induction false} PowMono(b: nat, m: nat, n: nat)
    requires b > 0 && m <= n
    ensures Pow(b, m) <= Pow(b, n)
    decreases n
  {
    if m < n {
      PowMono(b, m, n - 1);
      assert Pow(b, n - 1) <= b * Pow(b, n - 1);
    }
  }

  lemma {:induction false} PowStrict(b: nat, m: nat, n: nat)
    requires b > 1 && m < n
    ensures Pow(b, m) < Pow(b, n)
  {
    PowMono(b, m, n - 1);
    assert Pow(b, n - 1) < b * Pow(b, n - 1);
  }

  lemma {:induction false} PowMul(a: nat, b: nat, e: nat)
    ensures Pow(a * b, e) == Pow(a, e) * Pow(b, e)
  {
    if e > 0 {
      PowMul(a, b, e - 1);
      calc {
        Pow(a * b, e);
        (a * b) * (Pow(a, e - 1) * Pow(b, e - 1));
        (a * Pow(a, e - 1)) * (b * Pow(b, e - 1));
        Pow(a, e) * Pow(b, e);
      }
    }
  }

  lemma {:induction false} PowPow(b: nat, m: nat, n: nat)
    ensures Pow(Pow(b, m), n) == Pow(b, m * n)
  {
    if n > 0 {
      PowPow(b, m, n - 1);
      assert m * n == m + m * (n - 1);
      PowAdd(b, m, m * (n - 1));
    }
  }

  /** Multiplying an inequality by a non-negative factor. */
  lemma {:induction false} MulMono(a: int, b: int, c: int)
    requires a <= b && c >= 0
    ensures a * c <= b * c
  {
  }

  lemma {:induction false} MulStrict(a: int, b: int, c: int)
    requires a < b && c > 0
    ensures a * c < b * c
  {
  }

  /** A strict product inequality can be divided by its common factor. */
  lemma {:induction false} MulCancel(a: int, b: int, c: int)
    requires a * c < b * c && c > 0
    ensures a < b
  {
    if b <= a { MulMono(b, a, c); }
  }

  lemma {:induction false} MulCancelEq(a: int, b: int, c: int)
    requires a * c == b * c && c > 0
    ensures a == b
  {
    if a < b { MulStrict(a, b, c); }
    if b < a { MulStrict(b, a, c); }
  }

  /** Quotient and remainder are the only pair that fits. */
  lemma {:induction false} DivModUnique(n: int, d: int, q: int, r: int)
    requires d > 0 && n == q * d + r && 0 <= r < d
    ensures q == n / d && r == n % d
  {
    var q', r' := n / d, n % d;
    assert n == q' * d + r';
    assert (q - q') * d == r' - r;
    if q < q' { MulMono(1, q' - q, d); }
    if q' < q { MulMono(1, q - q', d); }
  }

  lemma {:induction false} PowBasics(b: nat)
    ensures Pow(b, 0) == 1 && Pow(b, 1) == b
  {
  }

  lemma {:induction false} PowTenStep(n: nat)
    ensures Pow(10, n + 1) == 10 * Pow(10, n)
  {
  }

  // ---- Products of sums ----

  lemma {:induction false} TimesSum(a: int, b: int, c: int)
    ensures (a + b) * c == a * c + b * c
  {
  }

  lemma {:induction false} TimesDifference(a: int, b: int, c: int)
    ensures (a - b) * c == a * c - b * c
  {
  }

  lemma {:induction false} TimesSuccessor(a: int, b: int)
    ensures (a + 1) * b == a * b + b
  {
  }

  lemma {:induction false} TimesPredecessor(a: int, b: int)
    ensures (a - 1) * b == a * b - b
  {
  }

  lemma {:induction false} TimesSplit(a: int, b: int, c: int, d: int)
    ensures (a * b + c) * d == a * (b * d) + c * d
  {
  }

  lemma {:induction false} TenAcross(a: int, b: int)
    ensures (10 * a) * b == a * (10 * b)
  {
  }

  lemma {:induction false} TenOut(a: int, b: int)
    ensures a * (10 * b) == 10 * (a * b)
  {
  }

  function Max(a: int, b: int): int { if a < b then b else a }

  function Min(a: int, b: int): int { if a < b then a else b }
}
