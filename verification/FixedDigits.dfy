/** Digits up to a given decimal place, and what counted and fixed digits say about the number itself. */
module FixedDigits {
  import opened Arith
  import opened RealPowers
  import opened Limbs
  import opened Decimals
  import opened LimbArith
  import opened Bignums
  import opened GenerateDigits
  import opened CountedDigits
  import opened DecimalRounding

  /** The integer closest to y, halves upwards. */
  ghost function HalfUp(y: real): int {
    (y + 0.5).Floor
  }

  /** x rounded half up to `places` digits after the decimal point. */
  ghost function RoundedAt(x: real, places: int): real {
    HalfUp(x * Exp(10, places)) as real * Exp(10, -places)
  }

  lemma {:induction false} FractionHalfUp(r: int, a: nat, b: nat, y: real)
    requires b > 0 && HalfUpFraction(r, a, b) && b as real * y == a as real
    ensures HalfUp(y) == r
  {
    ProductInt(r, b);
    Halves(r as real, b as real, r as real * b as real, a as real, y);
  }

  lemma {:induction false} ProductInt(r: int, b: int)
    ensures (2 * r * b) as real == 2.0 * (r as real * b as real)
  {
    assert 2 * r * b == 2 * (r * b);
    CastProduct(r, b);
  }

  lemma {:induction false} Halves(z: real, d: real, w: real, a: real, y: real)
    requires d > 0.0 && w == z * d && d * y == a && 2.0 * w - d <= 2.0 * a < 2.0 * w + d
    ensures z - 0.5 <= y < z + 0.5
  {
    HalfMore(z, d);
    AtMost(z - 0.5, y, d, d * (z - 0.5), a);
    Below(y, z + 0.5, d, a, d * (z + 0.5));
  }

  lemma {:induction false} HalfMore(z: real, d: real)
    ensures d * (z - 0.5) == z * d - 0.5 * d && d * (z + 0.5) == z * d + 0.5 * d
  {
  }

  lemma {:induction false} Below(x: real, y: real, d: real, p: real, q: real)
    requires d > 0.0 && p == d * x && q == d * y && p < q
    ensures x < y
  {
    ScaleOrder(x, y, d);
  }

  lemma {:induction false} AtMost(x: real, y: real, d: real, p: real, q: real)
    requires d > 0.0 && p == d * x && q == d * y && p <= q
    ensures x <= y
  {
    ScaleOrder(y, x, d);
  }

  /** num / den * 10^(point - 1) is x; `places` digits of x are point + places digits of the fraction. */
  lemma {:induction false} Rescaled(num: nat, den: nat, point: int, x: real, places: int)
    requires den > 0 && num as real * Exp(10, point - 1) == den as real * x
    ensures den as real * (x * Exp(10, places)) == num as real * Exp(10, point - 1 + places)
  {
    hide Exp;
    ExpAdd(10, point - 1, places);
    Regrouped(num as real, Exp(10, point - 1), den as real, x, Exp(10, places));
  }

  lemma {:induction false} Regrouped(n: real, p: real, d: real, x: real, e: real)
    requires n * p == d * x
    ensures d * (x * e) == n * (p * e)
  {
    assert d * (x * e) == (d * x) * e;
    assert n * (p * e) == (n * p) * e;
  }

  /** Counted digits are x rounded to the place of the last of them. */
  lemma {:induction false} CountedIsRounded(num: nat, den: nat, point: int, x: real, count: nat, r: nat, carried: bool)
    requires den > 0 && count > 0 && num as real * Exp(10, point - 1) == den as real * x
    requires HalfUpFraction(r * (if carried then 10 else 1), num * Pow(10, count - 1), den)
    ensures Decimal(r, (if carried then point + 1 else point) - count) == RoundedAt(x, count - point)
  {
    hide Exp, Pow, HalfUpFraction, HalfUp;
    Rescaled(num, den, point, x, count - point);
    ExpNat(10, count - 1);
    CastProduct(num, Pow(10, count - 1));
    FractionHalfUp(r * (if carried then 10 else 1), num * Pow(10, count - 1), den, x * Exp(10, count - point));
    if carried {
      ExpStep(10, point - count);
      CarriedOut(r, Exp(10, point - count));
    }
    assert -(count - point) == point - count;
  }

  lemma {:induction false} CarriedOut(r: nat, e: real)
    ensures (r * 10) as real * e == r as real * (10.0 * e)
  {
    CastProduct(r, 10);
  }

  /** A number below a tenth of the last place is rounded to zero. */
  lemma {:induction false} TooSmall(x: real, places: int)
    requires 0.0 <= x < Exp(10, -places - 1)
    ensures RoundedAt(x, places) == 0.0
  {
    hide Exp;
    ExpAdd(10, -places - 1, places);
    Tenth();
    TenthBound(x, Exp(10, -places - 1), Exp(10, places), 0.1);
  }

  lemma {:induction false} TenthBound(x: real, bound: real, e: real, m: real)
    requires 0.0 <= x < bound && e > 0.0 && bound * e == m
    ensures 0.0 <= x * e < m
  {
    ScaleOrder(x, bound, e);
    assert x * e >= 0.0;
  }

  /** A fraction below ten times the place before the last. */
  lemma {:induction false} FractionBelow(num: nat, den: nat, point: int, x: real, places: int)
    requires 0 < den && num < 10 * den && num as real * Exp(10, point - 1) == den as real * x
    requires -point > places
    ensures 0.0 <= x < Exp(10, -places - 1)
  {
    hide Exp;
    ExpStep(10, point - 1);
    if point < -places - 1 { ExpMono(10, point, -places - 1); }
    BelowTen(num as real, den as real, Exp(10, point - 1), x);
  }

  lemma {:induction false} BelowTen(n: real, d: real, p: real, x: real)
    requires 0.0 <= n < 10.0 * d && p > 0.0 && d > 0.0 && n * p == d * x
    ensures 0.0 <= x < 10.0 * p
  {
    ScaleOrder(n, 10.0 * d, p);
    assert d * x < d * (10.0 * p);
    if x >= 10.0 * p { ScaleOrder(10.0 * p, x, d); }
    if x < 0.0 { ScaleOrder(x, 0.0, d); }
  }

  /** One digit or none, by comparing the fraction with one half of the place before it. */
  lemma {:induction false} SingleDigit(num: nat, den: nat, point: int, x: real, up: bool)
    requires den > 0 && num < 10 * den && num as real * Exp(10, point - 1) == den as real * x &&
             (up <==> num + num >= 10 * den)
    ensures RoundedAt(x, -point) == if up then Decimal(1, point) else 0.0
  {
    hide Exp;
    Rescaled(num, den, point, x, -point);
    Tenth();
    SingleHalf(num, den, x * Exp(10, -point), up);
    assert -(-point) == point;
  }

  lemma {:induction false} SingleHalf(num: nat, den: nat, y: real, up: bool)
    requires den > 0 && num < 10 * den && den as real * y == num as real * 0.1 && (up <==> num + num >= 10 * den)
    ensures HalfUp(y) == if up then 1 else 0
  {
    assert (10 * den) as real * y == num as real by {
      assert (10 * den) as real == 10.0 * den as real;
      assert (10.0 * den as real) * y == 10.0 * (den as real * y);
    }
    FractionHalfUp(if up then 1 else 0, num, 10 * den, y);
  }

  /** Writes the digits up to `requestedDigits` places after the point; none if the number rounds to zero. */
  method BignumToFixed(requestedDigits: int, decimalPointIn: int, numerator: Bignum, denominator: Bignum,
                       buffer: array<char>, ghost x: real)
    returns (decimalPoint: int, length: nat)
    requires numerator.Valid() && denominator.Valid() && numerator.Apart(denominator)
    requires denominator.Value() <= numerator.Value() < 10 * denominator.Value()
    requires Roomy(denominator.Value(), denominator.bigits.Length)
    requires 0 < buffer.Length && decimalPointIn + requestedDigits <= buffer.Length
    requires numerator.Value() as real * Exp(10, decimalPointIn - 1) == denominator.Value() as real * x
    modifies numerator, numerator.bigits, denominator, denominator.bigits, buffer
    ensures length <= buffer.Length && (length > 0 ==> length <= decimalPointIn + requestedDigits || length == 1)
    ensures if length > 0 then length <= decimalPoint + requestedDigits else decimalPoint == -requestedDigits
    ensures AllDigits(buffer[..length]) && (length > 0 ==> Pow(10, length - 1) <= DecimalValue(buffer[..length]))
    ensures Decimal(DecimalValue(buffer[..length]), decimalPoint - length) == RoundedAt(x, requestedDigits)
  {
    hide BPow, Pow, Exp, DecimalValue, HalfUpFraction, RoundedAt, Bignum.Valid, Bignum.Value;
    ghost var num, den := numerator.Value(), denominator.Value();
    if -decimalPointIn > requestedDigits {
      decimalPoint, length := -requestedDigits, 0;
      DecimalEmpty(buffer[..0]);
      FractionBelow(num, den, decimalPointIn, x, requestedDigits);
      TooSmall(x, requestedDigits);
    } else if -decimalPointIn == requestedDigits {
      Times10(denominator);
      var compare := Bignum.PlusCompare(numerator, numerator, denominator);
      SingleDigit(num, den, decimalPointIn, x, compare >= 0);
      if compare >= 0 {
        buffer[0] := '1';
        length := 1;
        decimalPoint := decimalPointIn + 1;
        SingleOne(buffer[..1]);
      } else {
        length := 0;
        decimalPoint := decimalPointIn;
        DecimalEmpty(buffer[..0]);
      }
    } else {
      var neededDigits := decimalPointIn + requestedDigits;
      decimalPoint, length := GenerateCountedDigits(neededDigits, decimalPointIn, numerator, denominator, buffer);
      CountedIsRounded(num, den, decimalPointIn, x, neededDigits, DecimalValue(buffer[..length]),
                       decimalPoint != decimalPointIn);
    }
  }

  lemma {:induction false} SingleOne(s: seq<char>)
    requires s == ['1']
    ensures AllDigits(s) && DecimalValue(s) == 1 == Pow(10, 0)
  {
    assert s[..0] == [];
  }
}
