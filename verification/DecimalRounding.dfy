/** What the scaled interval of the digit generator says about doubles: inside means "reads back as". */
module DecimalRounding {
  import opened Arith
  import opened RealPowers
  import opened Ieee
  import opened Shortest

  ghost function LowerBoundary(w: Double): real
    requires 0 < w.d64
  {
    Double(w.d64 - 1).UpperBoundary().Value()
  }

  /** The fraction and its deltas are w and its boundaries, scaled by den / 10^(point-1). */
  ghost predicate Represents(s: Scaled, w: Double, point: int) {
    && 0 < w.d64 && w.Finite() && s.den > 0 && s.even == w.IsEven() && s.minus <= s.num
    && s.num as real * Exp(10, point - 1) == s.den as real * w.Value()
    && (s.num - s.minus) as real * Exp(10, point - 1) == s.den as real * LowerBoundary(w)
    && (s.num + s.plus) as real * Exp(10, point - 1) == s.den as real * w.UpperBoundary().Value()
  }

  /** The decimal c * 10^e. */
  ghost function Decimal(c: nat, e: int): real {
    c as real * Exp(10, e)
  }

  lemma {:induction false} CompareScaled(bound: int, den: nat, c: nat, j: nat, point: int, b: real)
    requires den > 0 && bound as real * Exp(10, point - 1) == den as real * b
    ensures c * den < bound * Pow(10, j) <==> Decimal(c, point - 1 - j) < b
    ensures c * den == bound * Pow(10, j) <==> Decimal(c, point - 1 - j) == b
  {
    hide Exp, Pow;
    ExpNat(10, j);
    ExpAdd(10, point - 1 - j, j);
    var e, t := Exp(10, point - 1 - j), Pow(10, j);
    CastProduct(c, den);
    CastProduct(bound, t);
    assert (c * den) as real * e == den as real * (c as real * e) by { Swap(c as real, den as real, e); }
    assert (bound * t) as real * e == den as real * b by { Swap2(bound as real, t as real, e); }
    ScaleOrder((c * den) as real, (bound * t) as real, e);
    ScaleOrder(c as real * e, b, den as real);
  }

  lemma {:induction false} Swap(a: real, b: real, e: real)
    ensures (a * b) * e == b * (a * e)
  {
  }

  lemma {:induction false} Swap2(a: real, b: real, e: real)
    ensures (a * b) * e == a * (e * b)
  {
  }

  lemma {:induction false} ScaleOrder(x: real, y: real, p: real)
    requires p > 0.0
    ensures x < y <==> x * p < y * p
    ensures x == y <==> x * p == y * p
    ensures x < y <==> p * x < p * y
    ensures x == y <==> p * x == p * y
  {
    if x < y { assert (y - x) * p > 0.0; }
    if y < x { assert (x - y) * p > 0.0; }
  }

  /** A decimal lies inside the scaled interval exactly if it reads back as w. */
  lemma {:induction false} InsideIsRounding(s: Scaled, w: Double, point: int, c: nat, j: nat)
    requires Represents(s, w, point)
    ensures Inside(s, c, j) <==> RoundsTo(Decimal(c, point - 1 - j), w)
  {
    hide Exp, Pow, Double.Value, DiyFp.Value, Double.UpperBoundary;
    CompareScaled(s.num - s.minus, s.den, c, j, point, LowerBoundary(w));
    CompareScaled(s.num + s.plus, s.den, c, j, point, w.UpperBoundary().Value());
    TimesDifference(s.num, s.minus, Pow(10, j));
    TimesSum(s.num, s.plus, Pow(10, j));
  }

  /** The n digits of c at this point read back as w, no decimal with fewer digits and none with a greater exponent
      does, and no other decimal with this exponent is closer to w. */
  ghost predicate IsShortestDecimal(w: Double, c: nat, n: nat, point: int)
  {
    && n > 0 && Pow(10, n - 1) <= c < Pow(10, n)
    && RoundsTo(Decimal(c, point - n), w)
    && (forall o: nat, e: int :: o < Pow(10, n - 1) || e > point - n ==> !RoundsTo(Decimal(o, e), w))
    && ClosestDecimal(w, c, point - n)
  }

  ghost predicate ClosestDecimal(w: Double, c: nat, e: int)
  {
    forall o: nat :: RoundsTo(Decimal(o, e), w) ==>
      && Distance(Decimal(c, e), w.Value()) <= Distance(Decimal(o, e), w.Value())
      && (o != c && Distance(Decimal(c, e), w.Value()) == Distance(Decimal(o, e), w.Value()) ==> c % 2 == 0)
  }

  lemma {:induction false} ShortestReadsBack(s: Scaled, w: Double, point: int, c: nat, n: nat)
    requires Ready(s) && Represents(s, w, point) && IsShortest(s, c, n)
    ensures IsShortestDecimal(w, c, n, point)
  {
    hide Decimal, Exp, Pow, RoundsTo, Inside, Off, Represents, NoneInside, Closest;
    InsideIsRounding(s, w, point, c, n - 1);
    assert point - 1 - (n - 1) == point - n;
    forall o: nat, e: int | o < Pow(10, n - 1) || e > point - n
      ensures !RoundsTo(Decimal(o, e), w)
    {
      if e > point - n { CoarserDigits(s, w, point, n, o, e); } else { FewerDigits(s, w, point, n, o, e); }
    }
    ClosestReadsBack(s, w, point, c, n);
  }

  lemma {:induction false} ClosestReadsBack(s: Scaled, w: Double, point: int, c: nat, n: nat)
    requires Represents(s, w, point) && n > 0 && Closest(s, c, n - 1)
    ensures ClosestDecimal(w, c, point - n)
  {
    hide Decimal, Exp, Pow, RoundsTo, Inside, Off, Represents, Distance;
    var e := point - n;
    assert point - 1 - (n - 1) == e;
    forall o: nat | RoundsTo(Decimal(o, e), w)
      ensures Distance(Decimal(c, e), w.Value()) <= Distance(Decimal(o, e), w.Value())
      ensures o != c && Distance(Decimal(c, e), w.Value()) == Distance(Decimal(o, e), w.Value()) ==> c % 2 == 0
    {
      InsideIsRounding(s, w, point, o, n - 1);
      OffIsDistance(s, w, point, c, o, n - 1);
    }
  }

  /** Integer offsets order decimals as their distances to w do. */
  lemma {:induction false} OffIsDistance(s: Scaled, w: Double, point: int, c: nat, o: nat, j: nat)
    requires Represents(s, w, point)
    ensures var e := point - 1 - j;
            && (Off(s, c, j) <= Off(s, o, j) <==>
                Distance(Decimal(c, e), w.Value()) <= Distance(Decimal(o, e), w.Value()))
            && (Off(s, c, j) == Off(s, o, j) <==>
                Distance(Decimal(c, e), w.Value()) == Distance(Decimal(o, e), w.Value()))
  {
    hide *;
    var e := point - 1 - j;
    PositiveDenominator(s, w, point);
    OffScaled(s, w, point, c, j);
    OffScaled(s, w, point, o, j);
    SameOrder(Off(s, c, j), Off(s, o, j), Exp(10, e), s.den as real,
              Distance(Decimal(c, e), w.Value()), Distance(Decimal(o, e), w.Value()));
  }

  lemma {:induction false} PositiveDenominator(s: Scaled, w: Double, point: int)
    requires Represents(s, w, point)
    ensures s.den as real > 0.0
  {
  }

  lemma {:induction false} SameOrder(a: nat, b: nat, e: real, d: real, x: real, y: real)
    requires e > 0.0 && d > 0.0 && a as real * e == d * x && b as real * e == d * y
    ensures a <= b <==> x <= y
    ensures a == b <==> x == y
  {
    ScaleOrder(a as real, b as real, e);
    ScaleOrder(b as real, a as real, e);
    ScaleOrder(x, y, d);
    ScaleOrder(y, x, d);
  }

  lemma {:induction false} OffScaled(s: Scaled, w: Double, point: int, c: nat, j: nat)
    requires Represents(s, w, point)
    ensures Off(s, c, j) as real * Exp(10, point - 1 - j)
         == s.den as real * Distance(Decimal(c, point - 1 - j), w.Value())
  {
    hide Exp, Pow, Double.Value, DiyFp.Value, Double.UpperBoundary, LowerBoundary;
    CompareScaled(s.num, s.den, c, j, point, w.Value());
    ScaledNumbers(s, w.Value(), point, c, j);
    OffReal(c * s.den, s.num * Pow(10, j), Exp(10, point - 1 - j), s.den as real, Decimal(c, point - 1 - j), w.Value());
  }

  /** The distance of the scaled integers is that of the numbers, scaled. */
  lemma {:induction false} OffReal(x: int, y: int, e: real, d: real, a: real, b: real)
    requires x as real * e == d * a && y as real * e == d * b && (x < y <==> a < b)
    ensures Abs(x - y) as real * e == d * Distance(a, b)
  {
    OffDifference(x as real, y as real, e, d, a, b);
  }

  lemma {:induction false} ScaledNumbers(s: Scaled, v: real, point: int, c: nat, j: nat)
    requires s.num as real * Exp(10, point - 1) == s.den as real * v
    ensures (c * s.den) as real * Exp(10, point - 1 - j) == s.den as real * Decimal(c, point - 1 - j)
    ensures (s.num * Pow(10, j)) as real * Exp(10, point - 1 - j) == s.den as real * v
  {
    hide Exp, Pow;
    ExpNat(10, j);
    ExpAdd(10, point - 1 - j, j);
    var e, t := Exp(10, point - 1 - j), Pow(10, j);
    CastProduct(c, s.den);
    CastProduct(s.num, t);
    Swap(c as real, s.den as real, e);
    Swap2(s.num as real, t as real, e);
  }

  lemma {:induction false} OffDifference(x: real, y: real, e: real, d: real, a: real, b: real)
    requires x * e == d * a && y * e == d * b
    ensures (x - y) * e == d * (a - b) && (y - x) * e == d * (b - a)
  {
  }

  /** A decimal with fewer digits, at whatever point, is outside. */
  lemma {:induction false} FewerDigits(s: Scaled, w: Double, point: int, n: nat, o: nat, e: int)
    requires Ready(s) && Represents(s, w, point) && n > 0 && NoneInside(s, n - 1) && o < Pow(10, n - 1)
    ensures !RoundsTo(Decimal(o, e), w)
  {
    hide *;
    var t := e - (point - 1);
    if t >= 0 {
      CoarseOutside(s, n, o, t);
      InsideIsRounding(s, w, point, o * Pow(10, t), 0);
      CoarseDecimal(o, point - 1, t);
    } else {
      FineOutside(s, n, o, -t);
      InsideIsRounding(s, w, point, o, -t);
    }
  }

  lemma {:induction false} CoarseDecimal(o: nat, e: int, t: nat)
    ensures Decimal(o * Pow(10, t), e) == Decimal(o, e + t)
  {
    hide Exp, Pow;
    ExpNat(10, t);
    ExpAdd(10, e, t);
    CastProduct(o, Pow(10, t));
    Swap2(o as real, Pow(10, t) as real, Exp(10, e));
  }

  lemma {:induction false} CoarseOutside(s: Scaled, n: nat, o: nat, t: nat)
    requires Ready(s) && n > 0 && NoneInside(s, n - 1) && o < Pow(10, n - 1)
    ensures !Inside(s, o * Pow(10, t), 0)
  {
    hide Inside, Pow, NoneInside;
    if n == 1 {
      PowStep(0);
      ZeroOutside(s, o * Pow(10, t));
    } else {
      NoneAt(s, n - 1, o * Pow(10, t), 0);
    }
  }

  lemma {:induction false} FineOutside(s: Scaled, n: nat, o: nat, j: nat)
    requires Ready(s) && n > 0 && NoneInside(s, n - 1) && o < Pow(10, n - 1)
    ensures !Inside(s, o, j)
  {
    hide Inside, Pow, NoneInside;
    if j >= n - 1 {
      BelowOne(s, n, o, j);
    } else {
      NoneAt(s, n - 1, o, j);
    }
  }

  lemma {:induction false} ZeroOutside(s: Scaled, c: nat)
    requires Ready(s)
    ensures c == 0 ==> !Inside(s, c, 0)
  {
  }

  /** An inside decimal below one would have the one itself inside too. */
  lemma {:induction false} BelowOne(s: Scaled, n: nat, o: nat, j: nat)
    requires Ready(s) && n > 0 && NoneInside(s, n - 1) && o < Pow(10, n - 1) && j >= n - 1
    ensures !Inside(s, o, j)
  {
    hide NoneInside, Pow;
    PowMono(10, n - 1, j);
    var t := Pow(10, j);
    if n == 1 {
      PowStep(0);
      MinusScaled(s, t);
    } else if Inside(s, o, j) {
      OneInside(s, o, j);
      NoneAt(s, n - 1, 1, 0);
    }
  }

  lemma {:induction false} NoneAt(s: Scaled, j: nat, c: nat, i: nat)
    requires NoneInside(s, j) && i < j
    ensures !Inside(s, c, i)
  {
  }

  lemma {:induction false} MinusScaled(s: Scaled, t: nat)
    requires Ready(s) && t > 0
    ensures s.minus * t < s.num * t
  {
    MulStrict(s.minus, s.num, t);
  }

  lemma {:induction false} OneInside(s: Scaled, o: nat, j: nat)
    requires Ready(s) && Inside(s, o, j) && o < Pow(10, j)
    ensures Inside(s, 1, 0)
  {
    var t := Pow(10, j);
    PowStep(0);
    MulStrict(o, t, s.den);
    TimesDifference(s.num, s.minus, t);
    if s.num - s.minus >= s.den { MulMono(s.den, s.num - s.minus, t); }
  }

  /** A decimal with a greater exponent is outside. */
  lemma {:induction false} CoarserDigits(s: Scaled, w: Double, point: int, n: nat, o: nat, e: int)
    requires Ready(s) && Represents(s, w, point) && n > 0 && NoneInside(s, n - 1) && e > point - n
    ensures !RoundsTo(Decimal(o, e), w)
  {
    hide *;
    var t := e - (point - 1);
    if t >= 0 {
      WholeOutside(s, n, o, t);
      InsideIsRounding(s, w, point, o * Pow(10, t), 0);
      CoarseDecimal(o, point - 1, t);
    } else {
      NoneAt(s, n - 1, o, -t);
      InsideIsRounding(s, w, point, o, -t);
    }
  }

  lemma {:induction false} WholeOutside(s: Scaled, n: nat, o: nat, t: nat)
    requires Ready(s) && n > 0 && NoneInside(s, n - 1) && (n == 1 ==> t > 0)
    ensures !Inside(s, o * Pow(10, t), 0)
  {
    hide Pow, NoneInside;
    if n > 1 {
      NoneAt(s, n - 1, o * Pow(10, t), 0);
    } else {
      PowStep(0);
      ZeroOutside(s, o * Pow(10, t));
      PowMono(10, 1, t);
      if o > 0 {
        MulMono(1, o, Pow(10, t));
        MulMono(10, o * Pow(10, t), s.den);
      }
    }
  }

  // ---- The shortest decimal is unique ----

  /** Between two numbers that round to w everything does. */
  lemma {:induction false} RoundingIsConvex(x: real, y: real, z: real, w: Double)
    requires RoundsTo(x, w) && RoundsTo(z, w) && x <= y <= z
    ensures RoundsTo(y, w)
  {
    hide Exp, Pow, Double.UpperBoundary, DiyFp.Value, Double.IsEven;
  }

  lemma {:induction false} DecimalGrows(c: nat, o: nat, e: int)
    requires c < o
    ensures Decimal(c, e) < Decimal(o, e) && Decimal(o, e) - Decimal(c, e) == (o - c) as real * Exp(10, e)
  {
    hide Exp;
    ScaleOrder(c as real, o as real, Exp(10, e));
  }

  lemma {:induction false} DecimalInjective(c: nat, o: nat, e: int)
    requires Decimal(c, e) == Decimal(o, e)
    ensures c == o
  {
    hide Decimal;
    if c < o { DecimalGrows(c, o, e); }
    if o < c { DecimalGrows(o, c, e); }
  }

  /** Two different decimals cannot both be closest and, if equally close, even. */
  lemma {:induction false} ClosestOnce(w: Double, c: nat, o: nat, e: int)
    requires RoundsTo(Decimal(c, e), w) && RoundsTo(Decimal(o, e), w) && ClosestDecimal(w, c, e) &&
             ClosestDecimal(w, o, e)
    ensures c >= o
  {
    hide Exp, Pow, RoundsTo, Double.Value, Decimal, Distance;
    if c < o {
      DecimalGrows(c, o, e);
      if o > c + 1 {
        DecimalGrows(c, c + 1, e);
        DecimalGrows(c + 1, o, e);
        RoundingIsConvex(Decimal(c, e), Decimal(c + 1, e), Decimal(o, e), w);
        Middle(Decimal(c, e), Decimal(c + 1, e), Decimal(o, e), w.Value());
      }
    }
  }

  lemma {:induction false} Middle(x: real, y: real, z: real, v: real)
    requires x < y < z
    ensures Distance(y, v) < Distance(x, v) || Distance(y, v) < Distance(z, v)
  {
  }

  lemma {:induction false} ShortestDecimalUnique(w: Double, c: nat, n: nat, point: int, o: nat, m: nat, place: int)
    requires IsShortestDecimal(w, c, n, point) && IsShortestDecimal(w, o, m, place)
    ensures c == o && n == m && point == place
  {
    hide Exp, Pow, RoundsTo, Decimal, ClosestDecimal;
    NoShorter(w, c, n, point, o, m, place);
    NoShorter(w, o, m, place, c, n, point);
    ClosestOnce(w, c, o, point - n);
    ClosestOnce(w, o, c, point - n);
  }

  lemma {:induction false} NoShorter(w: Double, c: nat, n: nat, point: int, o: nat, m: nat, place: int)
    requires IsShortestDecimal(w, c, n, point) && IsShortestDecimal(w, o, m, place)
    ensures n <= m && place - m <= point - n
  {
    hide Exp, Pow, RoundsTo, Decimal, ClosestDecimal;
    if m < n { PowMono(10, m, n - 1); }
  }

  lemma {:induction false} ZeroDecimal(e: int)
    ensures Decimal(0, e) == 0.0
  {
    hide Exp;
  }

  lemma {:induction false} DecimalNonNegative(c: nat, e: int)
    ensures Decimal(c, e) >= 0.0
  {
    hide Exp;
  }
}
