/** The arithmetic behind single steps of the bignum loops. */
module LimbArith {
  import opened Arith
  import opened Limbs
  import opened Columns
  import opened Decimals

  const CAPACITY := 128

  lemma {:induction false} ChunkFits(value: seq<char>, pos: nat, count: nat, k: nat)
    requires AllDigits(value) && pos + count <= |value| && Pow(10, |value|) <= BPow(k)
    ensures DecimalValue(value[..pos + count])
         == DecimalValue(value[..pos]) * Pow(10, count) + DecimalValue(value[pos..pos + count])
    ensures DecimalValue(value[..pos + count]) < BPow(k)
  {
    hide Pow, DecimalValue, BPow;
    assert value[..pos + count] == value[..pos] + value[pos..pos + count];
    DecimalConcat(value[..pos], value[pos..pos + count]);
    DecimalBound(value[..pos + count]);
    PowMono(10, pos + count, |value|);
  }

  lemma {:induction false} ScaledMantissa(m: nat, v: nat, count: nat, limit: nat)
    requires m <= v && v * Pow(10, count) < limit
    ensures Pow(5, count) * m < limit
  {
    hide Pow;
    PowMul(5, 2, count);
    MulMono(m, v, Pow(5, count));
    MulMono(1, Pow(2, count), v * Pow(5, count));
    assert v * (Pow(5, count) * Pow(2, count)) == (v * Pow(5, count)) * Pow(2, count);
  }

  function Sign(x: int): int {
    if x < 0 then -1 else if x > 0 then 1 else 0
  }

  lemma {:induction false} LimbProduct(a: int, b: int)
    requires 0 <= a < BASE && 0 <= b < BASE
    ensures 0 <= a * b <= 0xFF_FFFF_E000_0001
  {
    MulMono(a, BASE - 1, b);
  }

  lemma {:induction false} ColumnsStart(s: seq<uint32>, prefix: seq<uint32>)
    requires |prefix| == 0
    ensures Val(prefix) + 0 * BPow(0) == ColumnSum(s, s, 0)
  {
  }

  lemma {:induction false} ColumnStep(s: seq<uint32>, prefix: seq<uint32>, k: nat, acc: int, total: int, digit: uint32)
    requires |prefix| == k && total == acc + Column(s, s, k, |s|) && total >= 0
    requires digit as int == total % BASE
    requires Val(prefix) + acc * BPow(k) == ColumnSum(s, s, k)
    ensures Val(prefix + [digit]) + (total / BASE) * BPow(k + 1) == ColumnSum(s, s, k + 1)
  {
    hide BPow, Val, Column;
    ValSnoc(prefix, digit);
    BPowStep(k);
    var column, p, q := Column(s, s, k, |s|), BPow(k), total / BASE;
    assert total == q * BASE + digit as int;
    TimesSplit(q, BASE, digit as int, p);
    TimesSum(acc, column, p);
  }

  /** The square fits in twice the limbs, so no carry is left over. */
  lemma {:induction false} SquareTotal(s: seq<uint32>, product: seq<uint32>, acc: nat)
    requires Small(s) && |product| == 2 * |s|
    requires Val(product) + acc * BPow(2 * |s|) == ColumnSum(s, s, 2 * |s|)
    ensures acc == 0 && Val(product) == Val(s) * Val(s)
  {
    hide BPow, Val, ColumnSum;
    ColumnSumIsProduct(s, s, 2 * |s|);
    ValBound(s);
    BPowAdd(|s|, |s|);
    MulMono(Val(s), BPow(|s|) - 1, Val(s));
    MulMono(Val(s), BPow(|s|) - 1, BPow(|s|) - 1);
    SquareFits(BPow(|s|), Val(s), acc, Val(product));
  }

  lemma {:induction false} SquareFits(p: nat, v: nat, acc: nat, product: nat)
    requires v < p && v * v <= v * (p - 1) && v * (p - 1) <= (p - 1) * (p - 1)
    requires product + acc * (p * p) == v * v
    ensures acc == 0
  {
    assert (p - 1) * (p - 1) == p * p - p - p + 1;
    if acc > 0 { MulMono(1, acc, p * p); }
  }

  lemma {:induction false} SquareValue(m: int, e: nat)
    ensures (m * m) * BPow(e * 2) == (m * BPow(e)) * (m * BPow(e))
  {
    BPowAdd(e, e);
    var p := BPow(e);
    assert (m * m) * (p * p) == (m * p) * (m * p);
  }

  lemma {:induction false} QuotientStep(result: nat, top: nat, d: nat, value: nat, total: nat)
    requires total == result * d + value && top * d <= value && total < 0x1_0000 * d
    ensures total == (result + top) * d + (value - top * d) && result + top < 0x1_0000
  {
    assert (result + top) * d == result * d + top * d;
    MulCancel(result + top, 0x1_0000, d);
  }

  lemma {:induction false} DivisionTotal(total: nat, d: nat, first: nat, rest: nat, left: nat)
    requires total == first * d + (rest * d + left) && left < d && total < 0x1_0000 * d
    ensures first + rest < 0x1_0000 && total / d == first + rest && total % d == left
  {
    assert (first + rest) * d == first * d + rest * d;
    MulCancel(first + rest, 0x1_0000, d);
    DivModUnique(total, d, first + rest, left);
  }

  lemma {:induction false} EstimateBounds(limb: nat, top: nat, u: nat, v: nat, w: nat)
    requires 0 < top < BASE && limb < BASE && u > 0
    requires limb * u <= v < (limb + 1) * u && top * u <= w < (top + 1) * u
    ensures var e := limb / (top + 1);
            e < BASE && e * w <= v && top * (e + 1) <= 2 * BASE && (top * (e + 1) > limb ==> v - e * w < w)
  {
    var e := limb / (top + 1);
    FloorBounds(limb, top + 1);
    EstimateLow(limb, top, u, v, w, e);
    assert top * (e + 1) == e * (top + 1) - e + top;
    if top * (e + 1) > limb { EstimateExact(limb, top, u, v, w, e); }
  }

  lemma {:induction false} EstimateLow(limb: nat, top: nat, u: nat, v: nat, w: nat, e: nat)
    requires e * (top + 1) <= limb && limb * u <= v && w < (top + 1) * u
    ensures e * w <= v && e <= limb
  {
    MulMono(w, (top + 1) * u, e);
    assert e * ((top + 1) * u) == (e * (top + 1)) * u;
    MulMono(e * (top + 1), limb, u);
    MulMono(1, top + 1, e);
  }

  lemma {:induction false} EstimateExact(limb: nat, top: nat, u: nat, v: nat, w: nat, e: nat)
    requires top * (e + 1) > limb && v < (limb + 1) * u && top * u <= w
    ensures v - e * w < w
  {
    MulMono(limb + 1, top * (e + 1), u);
    assert (top * (e + 1)) * u == (e + 1) * (top * u);
    MulMono(top * u, w, e + 1);
    TimesSuccessor(e, w);
  }

  lemma {:induction false} TopBounds(top: nat, p: nat, q: nat, v: nat, w: nat)
    requires top > 0 && top * q <= v && p <= q && w < p && v < 0x1_0000 * w && w > 0
    ensures top * p <= v && 0 < top * w < v && top < 0x1_0000
  {
    MulMono(p, q, top);
    MulStrict(w, p, top);
    MulMono(1, top, w);
    if top >= 0x1_0000 { MulMono(0x1_0000, top, p); }
  }

  lemma {:induction false} ShortcutValue(limb: nat, top: nat, m: nat, p: nat, q: nat, u: nat)
    requires top > 0 && p > 0 && q > 0 && p * q == u
    requires limb * u <= m * q < (limb + 1) * u
    ensures var quotient := limb / top; var rest := limb - top * quotient;
            var m' := m + (rest - limb) * p;
            && 0 <= quotient <= limb && 0 <= rest && m * q == quotient * (top * u) + m' * q && m' * q < top * u
  {
    var quotient := limb / top;
    var rest := limb - top * quotient;
    assert (rest - limb) * p == -(top * quotient * p);
    assert (top * quotient * p) * q == quotient * (top * u);
    var m' := m - top * quotient * p;
    assert m' * q == m * q - quotient * (top * u);
    assert (limb + 1) * u == (rest + 1) * u + quotient * (top * u);
    MulMono(rest + 1, top, u);
  }

  lemma {:induction false} QuotientOrder(a: nat, b: nat, p: nat)
    requires p > 0 && a / p < b / p
    ensures a < b
  {
    var qa, qb := a / p, b / p;
    assert a < qa * p + p && qb * p <= b;
    MulMono(qa + 1, qb, p);
  }

  lemma {:induction false} SumOfMultiples(x: int, y: int, z: int, p: nat)
    requires p > 0
    ensures x * p + y * p == (x + y) * p
    ensures z - x - y == 0 ==> x * p + y * p == z * p
    ensures z - x - y == 1 ==> x * p + y * p < z * p
  {
    if z - x - y == 1 { MulStrict(x + y, z, p); }
  }

  lemma {:induction false} TimesBound(f: int, t: int, c: int)
    requires 0 <= f < BASE && 0 <= t < BASE && 0 <= c <= f
    ensures 0 <= f * t && c + f * t <= f * BASE
    ensures (c + f * t) / BASE <= f
    ensures (c + f * t) % BASE > 0 ==> (c + f * t) / BASE < f
  {
    MulMono(t, BASE - 1, f);
  }

  lemma {:induction false} DistributeSum(f: int, x: int, y: int)
    ensures f * (x + y) == f * x + f * y
  {
  }

  lemma {:induction false} TimesStep(cur: int, new': int, f: int, t: int, c: int, bit: int, p: int)
    requires new' - bit * (BASE * p) == cur - ((c + f * t) % BASE) * p
    ensures new' - (bit + (c + f * t) / BASE) * (BASE * p) == cur - c * p - f * (t * p)
  {
    var remove := c + f * t;
    var q, r := remove / BASE, remove % BASE;
    assert r * p == (c + f * t - BASE * q) * p;
    assert f * (t * p) == (f * t) * p;
  }

  lemma {:induction false} NoBorrow(v: int, c: int, p: int, left: int)
    requires 0 <= v < p && c >= 0 && v - c * p == left && left >= 0
    ensures c == 0 && v == left
  {
    if c > 0 { MulMono(1, c, p); }
  }

  lemma {:induction false} ScaledOffsetLess(m: int, v: int, f: nat, off: nat, e: nat)
    requires f * (v * BPow(off + e)) <= m * BPow(e)
    ensures f * (BPow(off) * v) <= m
  {
    BPowAdd(off, e);
    var p, q := BPow(off), BPow(e);
    calc {
      (f * (p * v)) * q;
      f * ((p * v) * q);
      f * (v * (p * q));
    }
    if m < f * (p * v) { MulStrict(m, f * (p * v), q); }
  }

  lemma {:induction false} ScaledOffsetDifference(m': int, m: int, v: int, f: int, off: nat, e: nat)
    requires m' == m - f * (BPow(off) * v)
    ensures m' * BPow(e) == m * BPow(e) - f * (v * BPow(off + e))
  {
    BPowAdd(off, e);
    var p, q := BPow(off), BPow(e);
    calc {
      (f * (p * v)) * q;
      f * ((p * v) * q);
      f * (v * (p * q));
    }
    assert (m - f * (p * v)) * q == m * q - (f * (p * v)) * q;
  }

  /** One step of an in-place multiplication by f. */
  lemma {:induction false} MultiplyStep(cur: seq<uint32>, s: seq<uint32>, i: nat, f: int, c: int, n: uint32, c': int)
    requires i < |cur| == |s| && cur[i] == s[i]
    requires f * s[i] as int + c == n as int + BASE * c'
    requires Val(cur) + c * BPow(i) == Val(s) + (f - 1) * Val(s[..i])
    ensures Val(cur[i := n]) + c' * BPow(i + 1) == Val(s) + (f - 1) * Val(s[..i + 1])
  {
    MultiplyDone(f, s[i] as int);
    LimbStep(cur, i, (f - 1) * s[i] as int, c, n, c');
    ValPrefix(s, i);
    ScaleSum(f - 1, Val(s[..i]), s[i] as int, BPow(i));
  }

  lemma {:induction false} ScaleSum(f: int, v: int, d: int, p: int)
    ensures f * (v + d * p) == f * v + (f * d) * p
  {
  }

  lemma {:induction false} MultiplyDone(f: int, v: int)
    ensures v + (f - 1) * v == f * v
  {
  }

  lemma {:induction false} ProductValue(m': int, m: int, f: int, p: int)
    requires m' == f * m
    ensures m' * p == (m * p) * f
  {
  }

  /** A limb shifted left within 32 bits, masked, with the carry added. */
  lemma {:induction false} ShiftStep(b: int, up: int, down: int, c: int)
    requires 0 <= b < BASE && up > 0 && down > 0 && up * down == BASE && 0 <= c < up
    ensures var digit := Wrap32(Wrap32(up * b) as int + c) as int % BASE;
            up * b + c == digit + BASE * (b / down)
    ensures 0 <= b / down < up
    ensures up * b + c > 0 || b == 0
  {
    var q, r := b / down, b % down;
    ShiftSplit(b, up, down, q, r);
    RemainderFits(up, down, r, c);
    SmallQuotient(up * b + c, q, up * r + c);
    ProductSign(up, b);
    WrapMask(up * b, c);
    QuotientFits(b, up, down);
  }

  lemma {:induction false} RemainderFits(up: int, down: int, r: int, c: int)
    requires up > 0 && 0 <= r < down && up * down == BASE && 0 <= c < up
    ensures 0 <= up * r + c < BASE
  {
    MulMono(r, down - 1, up);
  }

  lemma {:induction false} QuotientFits(b: int, up: int, down: int)
    requires 0 <= b < BASE && up > 0 && down > 0 && up * down == BASE
    ensures 0 <= b / down < up
  {
    if b / down >= up { MulMono(up, b / down, down); }
  }

  lemma {:induction false} ProductSign(a: int, b: int)
    requires a > 0 && b >= 0
    ensures a * b >= 0 && (b > 0 ==> a * b > 0)
  {
  }

  lemma {:induction false} ShiftSplit(b: int, up: int, down: int, q: int, r: int)
    requires b == q * down + r && up * down == BASE
    ensures up * b == q * BASE + up * r
  {
    assert up * (q * down) == q * (up * down);
  }

  lemma {:induction false} SmallQuotient(n: int, q: int, r: int)
    requires n == q * BASE + r && 0 <= r < BASE
    ensures n / BASE == q && n % BASE == r
  {
  }

  lemma {:induction false} WrapMask(x: int, c: int)
    requires x >= 0 && c >= 0
    ensures Wrap32(Wrap32(x) as int + c) as int % BASE == (x + c) % BASE
  {
    var y := x % 0x1_0000_0000;
    assert x == y + BASE * (16 * (x / 0x1_0000_0000));
    var z := (y + c) % 0x1_0000_0000;
    assert y + c == z + BASE * (16 * ((y + c) / 0x1_0000_0000));
    ModShift(y + c, 16 * (x / 0x1_0000_0000));
    ModShift(z, 16 * ((y + c) / 0x1_0000_0000));
  }

  lemma {:induction false} ModShift(x: int, k: int)
    ensures (x + BASE * k) % BASE == x % BASE
  {
  }

  lemma {:induction false} CarryFits(shift: nat)
    requires shift < 28
    ensures Pow(2, shift) <= BASE
  {
    PowMono(2, shift, 28);
    Pow2Base();
  }

  lemma {:induction false} ShiftValue(m: int, e: nat, shift: nat)
    ensures (Pow(2, shift % 28) * m) * BPow(e + shift / 28) == (m * BPow(e)) * Pow(2, shift)
  {
    var k, l := shift / 28, shift % 28;
    assert shift == 28 * k + l;
    PowAdd(2, 28 * k, l);
    Pow2Limbs(k);
    BPowAdd(e, k);
    Rearrange(Pow(2, l), m, BPow(e), BPow(k));
  }

  lemma {:induction false} Rearrange(a: int, m: int, p: int, q: int)
    ensures (a * m) * (p * q) == (m * p) * (q * a)
  {
    calc {
      (a * m) * (p * q);
      ((a * m) * p) * q;
      (a * (m * p)) * q;
      (m * p) * (q * a);
    }
  }

  lemma {:induction false} CarryNeedsLimb(v: int, c: int, n: nat, cap: nat)
    requires v >= 0 && c > 0 && v + c * BPow(n) < BPow(cap)
    ensures n < cap
  {
    MulMono(1, c, BPow(n));
    if n >= cap { BPowMono(cap, n); }
  }

  lemma {:induction false} ProductBound(f: int, b: int, c: int)
    requires 0 < f < 0x1_0000_0000 && 0 <= b < BASE && 0 <= c <= f
    ensures 0 <= f * b + c <= f * BASE < 0x1_0000_0000_0000_0000
    ensures (f * b + c) / BASE <= f
    ensures b > 0 ==> f * b + c > 0
  {
    MulMono(b, BASE - 1, f);
    if b > 0 { MulMono(1, b, f); }
  }

  /** A 64x28-bit product plus carry, from the two 32-bit halves of the factor. */
  lemma {:induction false} HalfProducts(low: int, high: int, b: int, c: int)
    requires 0 <= low < 0x1_0000_0000 && 0 <= high < 0x1_0000_0000 && 0 <= b < BASE
    requires 0 <= c < high * 0x1_0000_0000 + low
    ensures 0 <= low * b < 0x1000_0000_0000_0000 && 0 <= high * b < 0x1000_0000_0000_0000
    ensures var f := high * 0x1_0000_0000 + low; var tmp := c % BASE + low * b;
            var c' := c / BASE + tmp / BASE + high * b * 16;
            f * b + c == tmp % BASE + BASE * c' && c' < f && (b > 0 ==> f * b + c > 0)
  {
    MulMono(low, 0xFFFF_FFFF, b);
    MulMono(b, BASE - 1, 0xFFFF_FFFF);
    MulMono(high, 0xFFFF_FFFF, b);
    var f := high * 0x1_0000_0000 + low;
    assert f * b == (high * b) * 0x1_0000_0000 + low * b;
    MulMono(b, BASE - 1, f);
    if b > 0 { MulMono(1, b, f); }
  }

  lemma {:induction false} MovedTail(t: seq<uint32>, u: seq<uint32>, n: nat, z: nat)
    requires n + z <= |t| == |u| && t[z..] == u[z..] && Zeros(t, n + z)
    ensures u[z..n + z] == t[z..n + z] && Zeros(u, n + z)
  {
    assert u[z..n + z] == u[z..][..n];
    forall i | n + z <= i < |u| ensures u[i] == 0 {
      assert u[i] == u[z..][i - z];
    }
  }

  lemma {:induction false} MovedUp(s: seq<uint32>, t: seq<uint32>, n: nat, z: nat)
    requires n + z <= |s| == |t| && Small(s) && Zeros(s, n)
    requires Zeros(t[..z], 0) && t[z..n + z] == s[..n] && Zeros(t, n + z)
    ensures Small(t) && Val(t) == BPow(z) * Val(s)
    ensures n > 0 ==> t[n + z - 1] == s[n - 1]
  {
    ValShifted(s, t, n, z);
    forall i | 0 <= i < |t| ensures t[i] as int < BASE {
      if i < z {
        assert t[i] == t[..z][i];
      } else if i < n + z {
        assert t[i] == t[z..n + z][i - z];
      }
    }
    if n > 0 {
      assert t[n + z - 1] == t[z..n + z][n - 1];
    }
  }

  /** What changing only limbs below `pos` leaves of the top of a number. */
  lemma {:induction false} TailKept(s: seq<uint32>, t: seq<uint32>, pos: nat, n: nat)
    requires pos <= |s| == |t| && n <= |s| && Zeros(s, n)
    requires forall j :: pos <= j < |s| ==> t[j] == s[j]
    ensures Zeros(t, Max(pos, n))
    ensures pos < n ==> t[n - 1] == s[n - 1]
  {
  }

  function Wrap32(x: int): uint32 {
    (x % 0x1_0000_0000) as uint32
  }

  /** Bit 31 of the wrapped difference is the borrow, its low 28 bits are the new limb. */
  lemma {:induction false} BorrowStep(a: int, o: int)
    requires 0 <= a < BASE && 0 <= o <= BASE
    ensures var d := Wrap32(a - o) as int;
            d / 0x8000_0000 <= 1 && d % BASE == a - o + BASE * (d / 0x8000_0000)
  {
    if a < o { assert Wrap32(a - o) as int == a - o + 0x1_0000_0000; }
  }

  lemma {:induction false} OffsetLess(m: int, v: int, off: nat, e: nat)
    requires v * BPow(off + e) <= m * BPow(e)
    ensures BPow(off) * v <= m
  {
    BPowAdd(off, e);
    assert (BPow(off) * v) * BPow(e) == v * (BPow(off) * BPow(e));
    if m < BPow(off) * v { MulStrict(m, BPow(off) * v, BPow(e)); }
  }

  lemma {:induction false} OffsetDifference(m: int, m': int, v: int, off: nat, e: nat)
    requires m' == m - BPow(off) * v
    ensures m' * BPow(e) == m * BPow(e) - v * BPow(off + e)
  {
    BPowAdd(off, e);
    var p, q := BPow(off), BPow(e);
    assert (m - p * v) * q == m * q - v * (p * q);
  }

  lemma {:induction false} OffsetSum(m: int, m': int, v: int, off: nat, e: nat)
    requires m' == m + BPow(off) * v
    ensures m' * BPow(e) == m * BPow(e) + v * BPow(off + e)
  {
    BPowAdd(off, e);
    var p, q := BPow(off), BPow(e);
    assert (m + p * v) * q == m * q + v * (p * q);
  }

  lemma {:induction false} MulShift(p: int, v: int, q: int)
    ensures (p * v) * q == v * (p * q)
  {
  }
}
