/** Comba columns: the column sums of a product, weighted by the base, are the product. */
module Columns {
  import opened Arith
  import opened Limbs

  function At(s: seq<uint32>, i: int): nat {
    if 0 <= i < |s| then s[i] as nat else 0
  }

  /** The first `terms` products s[k - x] * t[x] of column k. */
  function Column(s: seq<uint32>, t: seq<uint32>, k: nat, terms: nat): nat {
    if terms == 0 then 0 else Column(s, t, k, terms - 1) + At(s, k - (terms - 1)) * At(t, terms - 1)
  }

  /** Columns 0 to m - 1 with their weights. */
  function ColumnSum(s: seq<uint32>, t: seq<uint32>, m: nat): nat {
    if m == 0 then 0 else ColumnSum(s, t, m - 1) + Column(s, t, m - 1, |t|) * BPow(m - 1)
  }

  /** The limbs of s moved up by n places, weighted. */
  function ShiftedSum(s: seq<uint32>, n: nat, m: nat): nat {
    if m == 0 then 0 else ShiftedSum(s, n, m - 1) + At(s, m - 1 - n) * BPow(m - 1)
  }

  lemma {:induction false} ShiftedSumIs(s: seq<uint32>, n: nat, m: nat)
    ensures m <= n ==> ShiftedSum(s, n, m) == 0
    ensures n <= m <= n + |s| ==> ShiftedSum(s, n, m) == BPow(n) * Val(s[..m - n])
    ensures n + |s| <= m ==> ShiftedSum(s, n, m) == BPow(n) * Val(s)
    decreases m
  {
    if m > n {
      ShiftedSumIs(s, n, m - 1);
      if m <= n + |s| {
        OperandStep(s, m - 1 - n, n);
        if m == n + |s| { assert s[..m - n] == s; }
      }
    } else if m == n && |s| == 0 {
      assert s[..0] == s;
    }
    if m > 0 && m <= n { ShiftedSumIs(s, n, m - 1); }
  }

  lemma {:induction false} ColumnSnoc(s: seq<uint32>, t: seq<uint32>, d: uint32, k: nat, terms: nat)
    requires terms <= |t|
    ensures Column(s, t + [d], k, terms) == Column(s, t, k, terms)
    decreases terms
  {
    if terms > 0 { ColumnSnoc(s, t, d, k, terms - 1); }
  }

  lemma {:induction false} ColumnSumSnoc(s: seq<uint32>, t: seq<uint32>, d: uint32, m: nat)
    ensures ColumnSum(s, t + [d], m) == ColumnSum(s, t, m) + ShiftedSum(s, |t|, m) * d as int
    decreases m
  {
    if m > 0 {
      ColumnSumSnoc(s, t, d, m - 1);
      ColumnSnoc(s, t, d, m - 1, |t|);
      Weights(Column(s, t, m - 1, |t|), At(s, m - 1 - |t|), d as int, BPow(m - 1), ShiftedSum(s, |t|, m - 1));
    }
  }

  lemma {:induction false} Weights(c: int, a: int, d: int, p: int, shifted: int)
    ensures (c + a * d) * p + shifted * d == c * p + (shifted + a * p) * d
  {
    assert (a * d) * p == (a * p) * d;
  }

  lemma {:induction false} ColumnSumEmpty(s: seq<uint32>, m: nat)
    ensures ColumnSum(s, [], m) == 0
    decreases m
  {
    if m > 0 { ColumnSumEmpty(s, m - 1); }
  }

  /** The convolution theorem behind Comba multiplication. */
  lemma {:induction false} ColumnSumIsProduct(s: seq<uint32>, t: seq<uint32>, m: nat)
    requires |s| + |t| <= m
    ensures ColumnSum(s, t, m) == Val(s) * Val(t)
    decreases |t|
  {
    if |t| == 0 {
      assert t == [];
      ColumnSumEmpty(s, m);
    } else {
      var n := |t| - 1;
      assert t == t[..n] + [t[n]];
      ColumnSumIsProduct(s, t[..n], m);
      ColumnSumSnoc(s, t[..n], t[n], m);
      ShiftedSumIs(s, n, m);
      ProductSnoc(Val(s), Val(t[..n]), t[n] as int, BPow(n));
    }
  }

  lemma {:induction false} ProductSnoc(v: int, w: int, d: int, p: int)
    ensures v * (w + d * p) == v * w + (p * v) * d
  {
    assert v * (d * p) == (p * v) * d;
  }

  /** Terms whose first index lies beyond the number contribute nothing. */
  lemma {:induction false} ColumnPrefixZero(s: seq<uint32>, t: seq<uint32>, k: nat, terms: nat)
    requires terms + |s| <= k + 1
    ensures Column(s, t, k, terms) == 0
    decreases terms
  {
    if terms > 0 { ColumnPrefixZero(s, t, k, terms - 1); }
  }

  lemma {:induction false} ColumnSuffixZero(s: seq<uint32>, t: seq<uint32>, k: nat, terms: nat)
    requires terms >= k + 1
    ensures Column(s, t, k, terms) == Column(s, t, k, k + 1)
    decreases terms
  {
    if terms > k + 1 { ColumnSuffixZero(s, t, k, terms - 1); }
  }
}
