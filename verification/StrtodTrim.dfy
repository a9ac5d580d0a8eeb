/** Trimming zeros and cutting long inputs: the parsed number may change, what it rounds to does not. */
module StrtodTrim {
  import opened Arith
  import opened RealPowers
  import opened Decimals
  import opened Ieee
  import opened DecimalRounding
  import opened Powers
  import opened DtoaFixup
  import opened PowerEstimate

  const MAX_SIGNIFICANT_DECIMAL_DIGITS := 780

  /** No zero at either end. */
  predicate Trimmed(s: seq<char>) {
    s == [] || (s[0] != '0' && s[|s| - 1] != '0')
  }

  lemma {:induction false} ZerosValue(s: seq<char>)
    requires AllDigits(s)
    ensures DecimalValue(s) == 0 <==> forall i :: 0 <= i < |s| ==> s[i] == '0'
    decreases |s|
  {
    if |s| > 0 { ZerosValue(s[..|s| - 1]); }
  }

  method TrimLeadingZeros(buffer: seq<char>) returns (r: seq<char>)
    requires AllDigits(buffer)
    ensures |r| <= |buffer| && r == buffer[|buffer| - |r|..] && AllDigits(r) && DecimalValue(r) == DecimalValue(buffer)
    ensures r == [] || r[0] != '0'
  {
    hide DecimalValue, Pow;
    for i := 0 to |buffer|
      invariant forall j :: 0 <= j < i ==> buffer[j] == '0'
    {
      if buffer[i] != '0' {
        LeadingZeros(buffer, i);
        return buffer[i..];
      }
    }
    ZerosValue(buffer);
    ZerosValue([]);
    return [];
  }

  lemma {:induction false} LeadingZeros(s: seq<char>, i: nat)
    requires AllDigits(s) && i <= |s| && forall j :: 0 <= j < i ==> s[j] == '0'
    ensures DecimalValue(s[i..]) == DecimalValue(s)
  {
    hide DecimalValue, Pow;
    assert s == s[..i] + s[i..];
    DecimalConcat(s[..i], s[i..]);
    ZerosValue(s[..i]);
  }

  method TrimTrailingZeros(buffer: seq<char>) returns (r: seq<char>)
    requires AllDigits(buffer)
    ensures |r| <= |buffer| && r == buffer[..|r|] && AllDigits(r)
    ensures DecimalValue(buffer) == DecimalValue(r) * Pow(10, |buffer| - |r|)
    ensures r == [] || r[|r| - 1] != '0'
  {
    hide DecimalValue, Pow;
    var i := |buffer| - 1;
    while i >= 0
      invariant -1 <= i < |buffer|
      invariant forall j :: i < j < |buffer| ==> buffer[j] == '0'
    {
      if buffer[i] != '0' {
        TrailingZeros(buffer, i + 1);
        return buffer[..i + 1];
      }
      i := i - 1;
    }
    TrailingZeros(buffer, 0);
    return buffer[..0];
  }

  lemma {:induction false} TrailingZeros(s: seq<char>, i: nat)
    requires AllDigits(s) && i <= |s| && forall j :: i <= j < |s| ==> s[j] == '0'
    ensures DecimalValue(s) == DecimalValue(s[..i]) * Pow(10, |s| - i)
  {
    hide DecimalValue, Pow;
    assert s == s[..i] + s[i..];
    DecimalConcat(s[..i], s[i..]);
    ZerosValue(s[i..]);
  }

  /** The two numbers are on the same side of every rounding boundary. */
  ghost predicate SameSide(x: real, y: real) {
    forall d: Double :: d.Finite() ==>
      && (x < d.UpperBoundary().Value() <==> y < d.UpperBoundary().Value())
      && (x == d.UpperBoundary().Value() <==> y == d.UpperBoundary().Value())
  }

  lemma {:induction false} SameSideRounding(x: real, y: real, d: Double)
    requires SameSide(x, y) && x >= 0.0 && y >= 0.0
    ensures RoundsTo(x, d) <==> RoundsTo(y, d)
  {
    hide Double.UpperBoundary, DiyFp.Value, Double.IsEven;
    if d.Ordered() && d.d64 > 0 { assert Double(d.d64 - 1).Finite(); }
  }

  /** A boundary has at most 54 bits at an exponent not below -1075. */
  lemma {:induction false} BoundaryParts(d: Double) returns (m: nat, q: int)
    requires d.Finite()
    ensures m < 0x40_0000_0000_0000 && q >= -1075 && d.UpperBoundary().Value() == m as real * Exp(2, q)
  {
    hide Exp, Pow, Double.Exponent, Double.Significand;
    SignificandBound(d);
    LeastExponent(d);
    m, q := d.Significand() as int * 2 + 1, d.Exponent() - 1;
  }

  /** No boundary lies strictly between two neighbouring decimals of 772 or more digits. */
  lemma {:induction false} NoBoundaryBetween(d: Double, p: nat, k: int)
    requires d.Finite() && p >= Pow(10, 771)
    ensures !(Decimal(p, k) < d.UpperBoundary().Value() < Decimal(p + 1, k))
  {
    hide Exp, Pow, Double.UpperBoundary, DiyFp.Value;
    if Decimal(p, k) < d.UpperBoundary().Value() < Decimal(p + 1, k) {
      if k >= 0 {
        BoundaryTooSmall(d, p, k);
      } else {
        var m, q := BoundaryParts(d);
        if q - k >= 0 {
          BoundaryWhole(m, q, p, -k);
        } else {
          BoundaryNarrow(m, q, p, -k);
        }
      }
    }
  }

  lemma {:induction false} BoundaryTooSmall(d: Double, p: nat, k: nat)
    requires d.Finite() && p >= Pow(10, 771)
    ensures d.UpperBoundary().Value() < Decimal(p, k)
  {
    hide Exp, Pow, Double.UpperBoundary, DiyFp.Value, Double.Value;
    BoundaryIsMidpoint(d);
    InfinityBound(Double(d.d64 + 1));
    PowMono(10, 309, 771);
    ExpNat(10, 309);
    HugeDecimal();
    if k > 0 { ExpMono(10, 0, k); }
    ExpZero(10);
    AtLeastTimes(p as real, Exp(10, k));
  }

  lemma {:induction false} AtLeastTimes(x: real, t: real)
    requires x >= 0.0 && t >= 1.0
    ensures x <= x * t
  {
    assert x * (t - 1.0) >= 0.0;
  }

  lemma {:induction false} InfinityBound(d: Double)
    requires d.Ordered()
    ensures d.Value() <= Exp(2, 1024)
  {
    hide Exp, Pow, Double.Value;
    if d.Finite() { BelowInfinity(d); } else { InfinityValue(d); }
  }

  /** 2^1024 < 10^309 and 2^1075 <= 10^324 */
  lemma {:induction false} HugeDecimal()
    ensures Exp(2, 1024) <= Exp(10, 309)
    ensures Exp(2, 1075) <= Exp(10, 324)
  {
    hide Exp, Pow;
    Convergents();
    Proportion(2, 485, 10, 146, 1024, 309);
    Proportion(2, 485, 10, 146, 1075, 324);
  }

  /** Scaled by 10^j the boundary is an integer. */
  lemma {:induction false} BoundaryWhole(m: nat, q: int, p: nat, j: int)
    requires j >= 0 && q + j >= 0
    ensures !(Decimal(p, -j) < m as real * Exp(2, q) < Decimal(p + 1, -j))
  {
    hide Exp, Pow;
    var n := m * (Pow(2, q + j) * Pow(5, j));
    WholeValue(m, q, j);
    ScaledDecimal(p, j);
    ScaledDecimal(p + 1, j);
    ScaledBetween(Decimal(p, -j), m as real * Exp(2, q), Decimal(p + 1, -j), Exp(10, j), p, n);
  }

  lemma {:induction false} ScaledBetween(a: real, x: real, b: real, t: real, p: int, n: int)
    requires t > 0.0 && a * t == p as real && b * t == (p + 1) as real && x * t == n as real
    ensures !(a < x < b)
  {
    NoIntegerBetween(p, n);
    if n <= p { AtMost(x, a, t, x * t, a * t); } else { AtMost(b, x, t, b * t, x * t); }
  }

  lemma {:induction false} NoIntegerBetween(p: int, n: int)
    ensures if n <= p then n as real <= p as real else (p + 1) as real <= n as real
  {
  }

  lemma {:induction false} AtMost(x: real, y: real, t: real, p: real, q: real)
    requires t > 0.0 && p == x * t && q == y * t && p <= q
    ensures x <= y
  {
    ScaleOrder(y, x, t);
  }

  lemma {:induction false} ScaledDecimal(p: nat, j: int)
    ensures Decimal(p, -j) * Exp(10, j) == p as real
  {
    hide Exp, Pow;
    ExpNeg(10, j);
    Regroup1(p as real, Exp(10, -j), Exp(10, j));
  }

  lemma {:induction false} Regroup1(a: real, x: real, y: real)
    requires y * x == 1.0
    ensures (a * x) * y == a
  {
    assert (a * x) * y == a * (y * x);
  }

  lemma {:induction false} WholeValue(m: nat, q: int, j: nat)
    requires q + j >= 0
    ensures (m as real * Exp(2, q)) * Exp(10, j) == (m * (Pow(2, q + j) * Pow(5, j))) as real
  {
    hide Exp, Pow;
    TenSplit(j);
    ExpAdd(2, q, j);
    ExpNat(2, q + j);
    CastProduct(Pow(2, q + j), Pow(5, j));
    CastProduct(m, Pow(2, q + j) * Pow(5, j));
    RealRegroup(m as real, Exp(2, q), Exp(2, j), Pow(5, j) as real);
  }

  lemma {:induction false} TenSplit(j: nat)
    ensures Exp(10, j) == Exp(2, j) * Pow(5, j) as real
  {
    hide Exp, Pow;
    ExpNat(10, j);
    ExpNat(2, j);
    PowMul(2, 5, j);
    CastProduct(Pow(2, j), Pow(5, j));
  }

  /** Scaled by 10^j the boundary has too few digits. */
  lemma {:induction false} BoundaryNarrow(m: nat, q: int, p: nat, j: int)
    requires j >= 0 && m < 0x40_0000_0000_0000 && q >= -1075 && q + j < 0 && p >= Pow(10, 771)
    ensures m as real * Exp(2, q) < Decimal(p, -j)
  {
    hide Exp, Pow;
    TenSplit(j);
    ExpAdd(2, q, j);
    ExpZero(2);
    ExpMono(2, q + j, 0);
    FiveDigits(m, j);
    ScaledDecimal(p, j);
    var x, t := m as real * Exp(2, q), Exp(10, j);
    RealRegroup(m as real, Exp(2, q), Exp(2, j), Pow(5, j) as real);
    CastProduct(m, Pow(5, j));
    Shrunk(m as real, Exp(2, q + j), Pow(5, j) as real);
    ScaleOrder(x, Decimal(p, -j), t);
  }

  lemma {:induction false} Shrunk(m: real, u: real, f: real)
    requires m >= 0.0 && 0.0 < u <= 1.0 && f > 0.0
    ensures m * (u * f) <= m * f
  {
    ScaleOrder(1.0, u, f);
    assert m * (f - u * f) >= 0.0;
  }

  lemma {:induction false} FiveDigits(m: nat, j: nat)
    requires m < 0x40_0000_0000_0000 && j <= 1074
    ensures m * Pow(5, j) < Pow(10, 771)
  {
    hide Pow;
    PowMono(5, j, 1075);
    PowMul(2, 5, 771);
    PowAdd(5, 771, 304);
    FiveTo304();
    PowAdd(2, 710, 61);
    PowMono(2, 54, 61);
    TwoTo53();
    PowStep2(53, 1);
    MulMono(Pow(5, j), Pow(5, 1075), m);
    FinalProduct(m, Pow(5, 304), Pow(2, 710), Pow(2, 61), Pow(5, 771));
  }

  lemma {:induction false} FinalProduct(m: nat, a: nat, b: nat, c: nat, f: nat)
    requires m < c && 0 < a <= b && f > 0
    ensures m * (f * a) < (b * c) * f
  {
    MulMono(a, b, m);
    MulStrict(m, c, b);
    MulStrict(m * a, b * c, f);
    assert m * (f * a) == (m * a) * f;
  }

  lemma {:induction false} FiveTo304()
    ensures Pow(5, 304) <= Pow(2, 710)
  {
    hide Pow;
    PowPow(5, 3, 101);
    PowPow(2, 7, 101);
    SmallPowers();
    PowBaseMono(Pow(5, 3), Pow(2, 7), 101);
    PowAdd(5, 303, 1);
    PowAdd(2, 707, 3);
    FiveAndEight();
  }

  lemma {:induction false} FiveAndEight()
    ensures Pow(5, 1) == 5 && Pow(2, 3) == 8
  {
    assert Pow(5, 0) == 1;
  }

  lemma {:induction false} SmallPowers()
    ensures Pow(5, 3) == 125 && Pow(2, 7) == 128
  {
    assert Pow(2, 3) == 8;
    PowAdd(2, 3, 4);
  }

  /** Keeps 779 digits and stands for all that follow by a single one. */
  method CutToMaxSignificantDigits(buffer: seq<char>, exponent: int, significantBuffer: array<char>)
    returns (significantExponent: int)
    requires AllDigits(buffer) && |buffer| > MAX_SIGNIFICANT_DECIMAL_DIGITS && Trimmed(buffer)
    requires significantBuffer.Length >= MAX_SIGNIFICANT_DECIMAL_DIGITS
    modifies significantBuffer
    ensures significantBuffer[..MAX_SIGNIFICANT_DECIMAL_DIGITS] == buffer[..MAX_SIGNIFICANT_DECIMAL_DIGITS - 1] + ['1']
    ensures significantExponent == exponent + |buffer| - MAX_SIGNIFICANT_DECIMAL_DIGITS
  {
    for i := 0 to MAX_SIGNIFICANT_DECIMAL_DIGITS - 1
      invariant significantBuffer[..i] == buffer[..i]
    {
      significantBuffer[i] := buffer[i];
    }
    significantBuffer[MAX_SIGNIFICANT_DECIMAL_DIGITS - 1] := '1';
    significantExponent := exponent + (|buffer| - MAX_SIGNIFICANT_DECIMAL_DIGITS);
  }

  /** The full number and the cut one lie strictly between the same two decimals of 779 digits. */
  lemma {:induction false} CutBetween(s: seq<char>, kept: nat, exponent: int)
    requires AllDigits(s) && 0 < kept < |s| - 1 && Trimmed(s)
    ensures AllDigits(s[..kept] + ['1'])
    ensures var p, k := DecimalValue(s[..kept]), exponent + |s| - kept;
            && p >= Pow(10, kept - 1)
            && Decimal(p, k) < Decimal(DecimalValue(s), exponent) < Decimal(p + 1, k)
            && Decimal(p, k) < Decimal(DecimalValue(s[..kept] + ['1']), k - 1) < Decimal(p + 1, k)
  {
    hide DecimalValue, Pow, Exp;
    var head, tail, t := s[..kept], s[kept..], |s| - kept;
    var p, k := DecimalValue(head), exponent + t;
    assert s == head + tail;
    DecimalConcat(head, tail);
    DecimalBound(tail);
    ZerosValue(tail);
    assert tail[t - 1] == s[|s| - 1];
    LeadingDigit(head);
    InsideUnit(p, DecimalValue(tail), t, exponent);
    DecimalConcat(head, ['1']);
    OneValue(['1']);
    PowBasics(10);
    InsideUnit(p, 1, 1, k - 1);
  }

  lemma {:induction false} OneValue(s: seq<char>)
    requires s == ['1']
    ensures AllDigits(s) && DecimalValue(s) == 1
  {
    assert s[..0] == [];
  }

  lemma {:induction false} LeadingDigit(s: seq<char>)
    requires AllDigits(s) && |s| > 0 && s[0] != '0'
    ensures DecimalValue(s) >= Pow(10, |s| - 1)
    decreases |s|
  {
    if |s| > 1 {
      LeadingDigit(s[..|s| - 1]);
    } else {
      assert s[..0] == [];
    }
  }

  lemma {:induction false} InsideUnit(p: nat, tail: nat, t: nat, e: int)
    requires 0 < tail < Pow(10, t)
    ensures Decimal(p, e + t) < Decimal(p * Pow(10, t) + tail, e) < Decimal(p + 1, e + t)
  {
    hide Exp, Pow;
    ExpAdd(10, e, t);
    ExpNat(10, t);
    CoarseDecimal(p, e, t);
    CoarseDecimal(p + 1, e, t);
    var v := p * Pow(10, t);
    assert (p + 1) * Pow(10, t) == v + Pow(10, t);
    DecimalOrder(v, v + tail, e);
    DecimalOrder(v + tail, v + Pow(10, t), e);
  }

  lemma {:induction false} DecimalOrder(a: nat, b: nat, e: int)
    requires a < b
    ensures Decimal(a, e) < Decimal(b, e)
  {
    hide Exp;
    ScaleOrder(a as real, b as real, Exp(10, e));
  }

  /** Cutting does not move the number across a rounding boundary. */
  lemma {:induction false} CutPreservesRounding(s: seq<char>, exponent: int)
    requires AllDigits(s) && Trimmed(s) && |s| > MAX_SIGNIFICANT_DECIMAL_DIGITS
    ensures var cut := s[..MAX_SIGNIFICANT_DECIMAL_DIGITS - 1] + ['1'];
            AllDigits(cut) && SameSide(Decimal(DecimalValue(s), exponent),
                                       Decimal(DecimalValue(cut), exponent + |s| - MAX_SIGNIFICANT_DECIMAL_DIGITS))
  {
    hide DecimalValue, Pow, Decimal, Double.UpperBoundary, DiyFp.Value;
    var kept := MAX_SIGNIFICANT_DECIMAL_DIGITS - 1;
    CutBetween(s, kept, exponent);
    var p, k := DecimalValue(s[..kept]), exponent + |s| - kept;
    PowMono(10, 771, 778);
    forall d: Double | d.Finite()
      ensures !(Decimal(p, k) < d.UpperBoundary().Value() < Decimal(p + 1, k))
    {
      NoBoundaryBetween(d, p, k);
    }
  }

  /** Removes zeros at both ends and cuts to 780 digits; the result rounds to the same double. */
  method TrimAndCut(buffer: seq<char>, exponent: int, bufferCopySpace: array<char>)
    returns (trimmed: seq<char>, updatedExponent: int)
    requires AllDigits(buffer) && bufferCopySpace.Length >= MAX_SIGNIFICANT_DECIMAL_DIGITS
    modifies bufferCopySpace
    ensures AllDigits(trimmed) && |trimmed| <= MAX_SIGNIFICANT_DECIMAL_DIGITS && Trimmed(trimmed)
    ensures SameSide(Decimal(DecimalValue(buffer), exponent), Decimal(DecimalValue(trimmed), updatedExponent))
  {
    hide DecimalValue, Pow, Decimal;
    var leftTrimmed := TrimLeadingZeros(buffer);
    var rightTrimmed := TrimTrailingZeros(leftTrimmed);
    var dropped := |leftTrimmed| - |rightTrimmed|;
    CoarseDecimal(DecimalValue(rightTrimmed), exponent, dropped);
    updatedExponent := exponent + dropped;
    if |rightTrimmed| > MAX_SIGNIFICANT_DECIMAL_DIGITS {
      CutPreservesRounding(rightTrimmed, updatedExponent);
      updatedExponent := CutToMaxSignificantDigits(rightTrimmed, updatedExponent, bufferCopySpace);
      trimmed := bufferCopySpace[..MAX_SIGNIFICANT_DECIMAL_DIGITS];
    } else {
      trimmed := rightTrimmed;
    }
  }
}
