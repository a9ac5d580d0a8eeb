/** Little-endian numbers in base 2^28, the representation behind Bignum. */
module Limbs {
  import opened Arith

  const BASE: nat := 0x1000_0000

  function BPow(e: nat): (r: nat)
    ensures r > 0
  {
    if e == 0 then 1 else 0x1000_0000 * BPow(e - 1)
  }

  lemma {:induction false} BPowStep(e: nat)
    ensures BPow(e + 1) == BASE * BPow(e)
  {
  }

  lemma {:induction false} BPowAdd(m: nat, n: nat)
    ensures BPow(m + n) == BPow(m) * BPow(n)
  {
    if m > 0 {
      BPowAdd(m - 1, n);
      assert BPow(m + n) == 0x1000_0000 * BPow(m - 1 + n);
    }
  }

  lemma {:induction false} BPowMono(m: nat, n: nat)
    requires m <= n
    ensures BPow(m) <= BPow(n)
    decreases n
  {
    if m < n { BPowMono(m, n - 1); }
  }

  function Val(s: seq<uint32>): nat {
    if |s| == 0 then 0 else Val(s[..|s| - 1]) + s[|s| - 1] as nat * BPow(|s| - 1)
  }

  /** Every limb fits in 28 bits. */
  ghost predicate Small(s: seq<uint32>) {
    forall i :: 0 <= i < |s| ==> s[i] as int < BASE
  }

  ghost predicate Zeros(s: seq<uint32>, from: int)
  {
    forall i :: 0 <= from <= i < |s| ==> s[i] == 0
  }

  lemma {:induction false} ValEmpty(s: seq<uint32>)
    requires |s| == 0
    ensures Val(s) == 0
  {
  }

  lemma {:induction false} ValSnoc(s: seq<uint32>, d: uint32)
    ensures Val(s + [d]) == Val(s) + d as nat * BPow(|s|)
  {
    assert (s + [d])[..|s|] == s;
  }

  lemma {:induction false} ValPrefix(s: seq<uint32>, i: nat)
    requires i < |s|
    ensures Val(s[..i + 1]) == Val(s[..i]) + s[i] as nat * BPow(i)
  {
    assert s[..i + 1][..i] == s[..i];
  }

  lemma {:induction false} ValUpdate(s: seq<uint32>, i: nat, d: uint32)
    requires i < |s|
    ensures Val(s[i := d]) == Val(s) + (d as int - s[i] as int) * BPow(i)
    decreases |s|
  {
    var n := |s| - 1;
    if i == n {
      assert s[i := d][..n] == s[..n];
    } else {
      assert s[i := d][..n] == s[..n][i := d];
      ValUpdate(s[..n], i, d);
    }
  }

  lemma {:induction false} Distribute(p: int, v: int, d: int, q: int)
    ensures p * (v + d * q) == p * v + d * (p * q)
  {
    assert p * (d * q) == d * (p * q);
  }

  lemma {:induction false} ValConcat(s: seq<uint32>, t: seq<uint32>)
    ensures Val(s + t) == Val(s) + BPow(|s|) * Val(t)
    decreases |t|
  {
    if |t| == 0 {
      assert s + t == s;
    } else {
      var n := |t| - 1;
      ValConcat(s, t[..n]);
      assert s + t == (s + t[..n]) + [t[n]];
      ValSnoc(s + t[..n], t[n]);
      BPowAdd(|s|, n);
      Distribute(BPow(|s|), Val(t[..n]), t[n] as int, BPow(n));
    }
  }

  lemma {:induction false} ValSplit(s: seq<uint32>, i: nat)
    requires i <= |s|
    ensures Val(s) == Val(s[..i]) + BPow(i) * Val(s[i..])
  {
    assert s == s[..i] + s[i..];
    ValConcat(s[..i], s[i..]);
  }

  lemma {:induction false} ValBound(s: seq<uint32>)
    requires Small(s)
    ensures Val(s) < BPow(|s|)
    decreases |s|
  {
    if |s| > 0 {
      var n := |s| - 1;
      ValBound(s[..n]);
      MulMono(s[n] as int, BASE - 1, BPow(n));
    }
  }

  lemma {:induction false} ValZeros(s: seq<uint32>)
    requires Zeros(s, 0)
    ensures Val(s) == 0
    decreases |s|
  {
    if |s| > 0 {
      ValZeros(s[..|s| - 1]);
    }
  }

  /** Zero limbs on top do not change the value. */
  lemma {:induction false} ValTrim(s: seq<uint32>, n: nat)
    requires n <= |s| && Zeros(s, n)
    ensures Val(s) == Val(s[..n])
  {
    ValSplit(s, n);
    ValZeros(s[n..]);
  }

  lemma {:induction false} TopLimb(v: nat, d: nat, p: nat)
    requires v < p && d > 0
    ensures p <= d * p <= v + d * p < (d + 1) * p
  {
    MulMono(1, d, p);
  }

  /** A number whose top non-zero limb is at n - 1 lies in [BPow(n-1), BPow(n)). */
  lemma {:induction false} ValRange(s: seq<uint32>, n: nat)
    requires 0 < n <= |s| && Small(s) && Zeros(s, n) && s[n - 1] != 0
    ensures BPow(n - 1) <= Val(s) < BPow(n)
    ensures s[n - 1] as nat * BPow(n - 1) <= Val(s) < (s[n - 1] as nat + 1) * BPow(n - 1)
  {
    ValTrim(s, n);
    ValBound(s[..n]);
    ValPrefix(s, n - 1);
    ValBound(s[..n - 1]);
    TopLimb(Val(s[..n - 1]), s[n - 1] as int, BPow(n - 1));
  }

  /** One step of a carry loop: limb `pos` absorbs `a` and the incoming carry `c`. */
  lemma {:induction false} LimbStep(s: seq<uint32>, pos: nat, a: int, c: int, n: uint32, c': int)
    requires pos < |s| && s[pos] as int + a + c == n as int + BASE * c'
    ensures Val(s[pos := n]) + c' * BPow(pos + 1) == Val(s) + c * BPow(pos) + a * BPow(pos)
  {
    ValUpdate(s, pos, n);
    CarryStep(s[pos] as int, a, c, n as int, c', BPow(pos));
  }

  lemma {:induction false} CarryStep(o: int, a: int, c: int, n: int, c': int, p: int)
    requires o + a + c == n + BASE * c'
    ensures (n - o) * p + c' * (BASE * p) == a * p + c * p
  {
    assert (o + a + c) * p == (n + BASE * c') * p;
  }

  /** The next limb of an operand that is added with `off` limbs of offset. */
  lemma {:induction false} OperandStep(t: seq<uint32>, i: nat, off: nat)
    requires i < |t|
    ensures BPow(off) * Val(t[..i + 1]) == BPow(off) * Val(t[..i]) + t[i] as int * BPow(off + i)
  {
    ValPrefix(t, i);
    BPowAdd(off, i);
    Distribute(BPow(off), Val(t[..i]), t[i] as int, BPow(i));
  }

  lemma {:induction false} LimbBorrow(s: seq<uint32>, pos: nat, a: int, n: uint32, c: int)
    requires pos < |s| && s[pos] as int - a == n as int - BASE * c
    ensures Val(s[pos := n]) - c * BPow(pos + 1) == Val(s) - a * BPow(pos)
  {
    ValUpdate(s, pos, n);
    BorrowScale(s[pos] as int, a, n as int, c, BPow(pos));
  }

  lemma {:induction false} BorrowScale(o: int, a: int, n: int, c: int, p: int)
    requires o - a == n - BASE * c
    ensures (n - o) * p - c * (BASE * p) == -(a * p)
  {
    assert (o - a) * p == (n - BASE * c) * p;
  }

  lemma {:induction false} SliceSplit(t: seq<uint32>, i: nat, j: nat)
    requires i <= j <= |t|
    ensures t[..j] == t[..i] + t[i..j]
  {
  }

  lemma {:induction false} MulOne(c: int, p: int)
    requires c == 1
    ensures c * p == p
  {
  }

  /** A number whose limbs are moved up by z places. */
  lemma {:induction false} ValShifted(s: seq<uint32>, t: seq<uint32>, n: nat, z: nat)
    requires n + z <= |s| == |t| && Zeros(s, n) && Zeros(t, n + z)
    requires Zeros(t[..z], 0) && t[z..n + z] == s[..n]
    ensures Val(t) == BPow(z) * Val(s)
  {
    ValTrim(s, n);
    ValTrim(t, n + z);
    ValZeros(t[..z]);
    SliceSplit(t, z, n + z);
    ValConcat(t[..z], s[..n]);
  }

  lemma {:induction false} BelowTop(s: seq<uint32>, n: nat)
    requires n <= |s| && Small(s) && Zeros(s, n)
    ensures Val(s) < BPow(n)
  {
    ValTrim(s, n);
    ValBound(s[..n]);
  }

  lemma {:induction false} Pow2Base()
    ensures Pow(2, 28) == BASE
  {
    assert Pow(2, 4) == 16;
    PowAdd(2, 4, 4);
    PowAdd(2, 8, 4);
    PowAdd(2, 12, 4);
    PowAdd(2, 16, 4);
    PowAdd(2, 20, 4);
    PowAdd(2, 24, 4);
  }

  lemma {:induction false} Pow2Limbs(k: nat)
    ensures Pow(2, 28 * k) == BPow(k)
  {
    if k > 0 {
      Pow2Limbs(k - 1);
      Pow2Base();
      PowAdd(2, 28, 28 * (k - 1));
    }
  }

  lemma {:induction false} ScaleRange(top: int, p: nat, m: int, q: int, e: nat)
    requires p <= m < q && top * p <= m < (top + 1) * p && e > 0
    ensures p * e <= m * e < q * e
    ensures top * (p * e) <= m * e < (top + 1) * (p * e)
  {
    MulMono(p, m, e);
    MulStrict(m, q, e);
    MulMono(top * p, m, e);
    MulStrict(m, (top + 1) * p, e);
    assert (top * p) * e == top * (p * e);
    assert ((top + 1) * p) * e == (top + 1) * (p * e);
  }

  /** The range of a clamped number with `e` hidden zero limbs. */
  lemma {:induction false} ScaledRange(s: seq<uint32>, n: nat, e: nat)
    requires 0 < n <= |s| && Small(s) && Zeros(s, n) && s[n - 1] != 0
    ensures BPow(n - 1 + e) <= Val(s) * BPow(e) < BPow(n + e)
    ensures s[n - 1] as nat * BPow(n - 1 + e) <= Val(s) * BPow(e) < (s[n - 1] as nat + 1) * BPow(n - 1 + e)
  {
    ValRange(s, n);
    BPowAdd(n - 1, e);
    BPowAdd(n, e);
    ScaleRange(s[n - 1] as int, BPow(n - 1), Val(s), BPow(n), BPow(e));
  }

  /** Dividing by a power of the base drops the low limbs. */
  lemma {:induction false} ValDrop(s: seq<uint32>, i: nat)
    requires i <= |s| && Small(s)
    ensures Val(s) / BPow(i) == Val(s[i..])
  {
    ValSplit(s, i);
    ValBound(s[..i]);
    DivModUnique(Val(s), BPow(i), Val(s[i..]), Val(s[..i]));
  }

  lemma {:induction false} ValHead(s: seq<uint32>)
    requires |s| > 0
    ensures Val(s) == s[0] as int + BASE * Val(s[1..])
  {
    assert s == [s[0]] + s[1..];
    ValConcat([s[0]], s[1..]);
    assert Val([s[0]]) == s[0] as int by {
      assert [s[0]][..0] == [];
    }
    assert BPow(1) == BASE;
  }

  /** Limb i of a number is the difference between its two floor quotients. */
  lemma {:induction false} LimbQuotient(s: seq<uint32>, i: nat)
    requires i < |s| && Small(s)
    ensures Val(s) / BPow(i) == BASE * (Val(s) / BPow(i + 1)) + s[i] as int
  {
    ValDrop(s, i);
    ValDrop(s, i + 1);
    ValHead(s[i..]);
    assert s[i..][1..] == s[i + 1..];
  }

  /** Hidden zero limbs cancel against the divisor. */
  lemma {:induction false} ScaledQuotientAbove(m: nat, e: nat, k: nat)
    ensures (m * BPow(e)) / BPow(e + k) == m / BPow(k)
  {
    hide BPow;
    BPowAdd(e, k);
    var p, d := BPow(e), BPow(k);
    var q, r := m / d, m % d;
    assert m * p == q * (p * d) + r * p by { assert m == q * d + r; ScaledSplit(q, d, r, p); }
    assert 0 <= r * p < p * d by { MulMono(r, d - 1, p); TimesPredecessor(d, p); }
    DivModUnique(m * p, p * d, q, r * p);
  }

  lemma {:induction false} ScaledSplit(q: int, d: int, r: int, p: int)
    ensures (q * d + r) * p == q * (p * d) + r * p
  {
    assert (q * d) * p == q * (p * d);
  }

  lemma {:induction false} ScaledQuotientBelow(m: nat, e: nat, i: nat)
    requires i <= e
    ensures (m * BPow(e)) / BPow(i) == m * BPow(e - i)
    ensures m * BPow(e) == (m * BPow(e - i)) * BPow(i)
  {
    BPowAdd(e - i, i);
    assert m * (BPow(e - i) * BPow(i)) == (m * BPow(e - i)) * BPow(i);
    DivModUnique(m * BPow(e), BPow(i), m * BPow(e - i), 0);
  }

  lemma {:induction false} HiddenLimbStep(m: nat, e: nat, i: nat)
    requires i < e
    ensures (m * BPow(e)) / BPow(i) == BASE * ((m * BPow(e)) / BPow(i + 1))
  {
    hide BPow;
    ScaledQuotientBelow(m, e, i);
    ScaledQuotientBelow(m, e, i + 1);
    BPowStep(e - i - 1);
    SwapFactor(m, BPow(e - i - 1));
  }

  lemma {:induction false} SwapFactor(m: int, p: int)
    ensures m * (BASE * p) == BASE * (m * p)
  {
  }

  /** A number below BPow(n), shifted, leaves room for one below BPow(e). */
  lemma {:induction false} DisjointBound(m: nat, n: nat, b: nat, e: nat)
    requires m < BPow(n) && b < BPow(e)
    ensures m * BPow(e) + b < BPow(n + e)
  {
    hide BPow;
    BPowAdd(n, e);
    MulMono(m + 1, BPow(n), BPow(e));
  }

  lemma {:induction false} SmallDivision(a: nat, p: nat)
    requires a < p
    ensures a / p == 0
  {
  }

  lemma {:induction false} FloorBounds(a: nat, p: nat)
    requires p > 0
    ensures (a / p) * p <= a < (a / p) * p + p
  {
  }

  /** What the floor quotients of three numbers say about a + b - c. */
  lemma {:induction false} SumAbove(a: nat, b: nat, c: nat, qa: nat, qb: nat, qc: nat, p: nat)
    requires p > 0 && qa * p <= a && qb * p <= b && c < qc * p + p
    requires qc - qa - qb < 0
    ensures a + b > c
  {
    MulMono(qc + 1, qa + qb, p);
    assert (qc + 1) * p == qc * p + p && (qa + qb) * p == qa * p + qb * p;
  }

  lemma {:induction false} SumBelow(a: nat, b: nat, c: nat, qa: nat, qb: nat, qc: nat, p: nat)
    requires p > 0 && a < qa * p + p && b < qb * p + p && qc * p <= c
    requires qc - qa - qb >= 2
    ensures a + b < c
  {
    MulMono(qa + qb + 2, qc, p);
    assert (qa + qb + 2) * p == qa * p + qb * p + p + p;
  }

  lemma {:induction false} QuotientGap(a: nat, b: nat, c: nat, p: nat)
    requires p > 0
    ensures c / p - a / p - b / p < 0 ==> a + b > c
    ensures c / p - a / p - b / p >= 2 ==> a + b < c
  {
    FloorBounds(a, p);
    FloorBounds(b, p);
    FloorBounds(c, p);
    if c / p - a / p - b / p < 0 {
      SumAbove(a, b, c, a / p, b / p, c / p, p);
    } else if c / p - a / p - b / p >= 2 {
      SumBelow(a, b, c, a / p, b / p, c / p, p);
    }
  }
}
