/** Shortest and closest decimals inside an interval around a fraction, and the steps of finding one. */
module Shortest {
  import opened Arith

  /** The fraction num/den with the distances minus/den and plus/den to its boundaries. */
  datatype Scaled = Scaled(num: nat, den: nat, minus: nat, plus: nat, even: bool)

  /** c / 10^j lies between the boundaries; on a boundary only if the significand is even. */
  ghost predicate Inside(s: Scaled, c: nat, j: nat) {
    var t := Pow(10, j);
    if s.even
    then s.num * t - s.minus * t <= c * s.den <= s.num * t + s.plus * t
    else s.num * t - s.minus * t < c * s.den < s.num * t + s.plus * t
  }

  /** No decimal with fewer than j fractional digits lies inside. */
  ghost predicate NoneInside(s: Scaled, j: nat) {
    forall c: nat, i: nat :: i < j ==> !Inside(s, c, i)
  }

  ghost function Off(s: Scaled, c: nat, j: nat): nat {
    Abs(c * s.den - s.num * Pow(10, j))
  }

  function Abs(x: int): nat {
    if x < 0 then -x else x
  }

  /** The boundaries enclose a positive interval whose upper end is in the first decade. */
  ghost predicate Ready(s: Scaled) {
    && s.den > 0 && s.plus > 0 && 0 < s.minus < s.num
    && if s.even then s.den <= s.num + s.plus < 10 * s.den else s.den < s.num + s.plus <= 10 * s.den
  }

  /** Among the decimals inside with j fractional digits, c is closest, and even if another one is as close. */
  ghost predicate Closest(s: Scaled, c: nat, j: nat) {
    forall o: nat :: Inside(s, o, j) ==>
      && Off(s, c, j) <= Off(s, o, j)
      && (o != c && Off(s, c, j) == Off(s, o, j) ==> c % 2 == 0)
  }

  /** The n digits of c, read as c / 10^(n-1), are the shortest inside and closest among those. */
  ghost predicate IsShortest(s: Scaled, c: nat, n: nat) {
    && n > 0
    && Pow(10, n - 1) <= c < Pow(10, n)
    && Inside(s, c, n - 1)
    && NoneInside(s, n - 1)
    && Closest(s, c, n - 1)
  }

  /** k digits with value c have been generated and the loop has to go on with num, minus and plus. */
  ghost predicate Generating(s: Scaled, c: nat, k: nat, num: nat, minus: nat, plus: nat) {
    && s.num * Pow(10, k) == 10 * (c * s.den) + num
    && minus == s.minus * Pow(10, k)
    && plus == s.plus * Pow(10, k)
    && NoneInside(s, k)
    && (if s.even then minus < num && num + plus < 10 * s.den else minus <= num && num + plus <= 10 * s.den)
    && (if k == 0 then c == 0 else Pow(10, k - 1) <= c < Pow(10, k))
  }

  /** Digit q with remainder r has been split off. */
  ghost predicate Split(s: Scaled, c: nat, k: nat, q: nat, r: nat, minus: nat, plus: nat) {
    && Generating(s, c, k, q * s.den + r, minus, plus)
    && r < s.den
  }

  predicate RoomMinus(even: bool, r: nat, minus: nat) {
    if even then r <= minus else r < minus
  }

  predicate RoomPlus(even: bool, r: nat, plus: nat, den: nat) {
    if even then r + plus >= den else r + plus > den
  }

  lemma {:induction false} StartGenerating(s: Scaled)
    requires Ready(s)
    ensures Generating(s, 0, 0, s.num, s.minus, s.plus)
  {
  }

  lemma {:induction false} SplitSum(s: Scaled, c: nat, k: nat, q: nat, r: nat, minus: nat, plus: nat)
    requires Split(s, c, k, q, r, minus, plus)
    ensures s.num * Pow(10, k) == (10 * c + q) * s.den + r
  {
    assert (10 * c + q) * s.den == 10 * (c * s.den) + q * s.den;
  }

  lemma {:induction false} DigitRange(s: Scaled, c: nat, k: nat, q: nat, r: nat, minus: nat, plus: nat)
    requires Ready(s) && Split(s, c, k, q, r, minus, plus)
    ensures q <= 9
  {
    PlusPositive(s, k);
    if q >= 10 { MulMono(10, q, s.den); }
  }

  lemma {:induction false} PlusPositive(s: Scaled, k: nat)
    requires Ready(s)
    ensures s.plus * Pow(10, k) > 0 && s.minus * Pow(10, k) > 0
  {
    MulMono(1, s.plus, Pow(10, k));
    MulMono(1, s.minus, Pow(10, k));
  }

  /** The two tests of the loop say whether the neighbours below and above lie inside, and they screen all others. */
  lemma {:induction false} Neighbours(s: Scaled, c: nat, k: nat, q: nat, r: nat, minus: nat, plus: nat)
    requires Ready(s) && Split(s, c, k, q, r, minus, plus)
    ensures Inside(s, 10 * c + q, k) <==> RoomMinus(s.even, r, minus)
    ensures Inside(s, 10 * c + q + 1, k) <==> RoomPlus(s.even, r, plus, s.den)
  {
    hide Pow;
    SplitSum(s, c, k, q, r, minus, plus);
    PlusPositive(s, k);
    assert (10 * c + q + 1) * s.den == (10 * c + q) * s.den + s.den;
  }

  lemma {:induction false} Screened(s: Scaled, c: nat, k: nat, q: nat, r: nat, minus: nat, plus: nat, o: nat)
    requires Ready(s) && Split(s, c, k, q, r, minus, plus) && Inside(s, o, k)
    ensures if o <= 10 * c + q then RoomMinus(s.even, r, minus) else RoomPlus(s.even, r, plus, s.den)
    ensures o < 10 * c + q ==> Off(s, o, k) > Off(s, 10 * c + q, k)
    ensures o > 10 * c + q + 1 ==> Off(s, o, k) > Off(s, 10 * c + q + 1, k)
    ensures Off(s, 10 * c + q, k) == r && Off(s, 10 * c + q + 1, k) == s.den - r
  {
    hide Pow;
    SplitSum(s, c, k, q, r, minus, plus);
    var c1 := 10 * c + q;
    assert (c1 + 1) * s.den == c1 * s.den + s.den;
    if o <= c1 {
      MulMono(o, c1, s.den);
      if o < c1 { MulStrict(o, c1, s.den); }
    } else {
      MulMono(c1 + 1, o, s.den);
      if o > c1 + 1 { MulStrict(c1 + 1, o, s.den); }
    }
  }

  lemma {:induction false} StillNone(s: Scaled, c: nat, k: nat, q: nat, r: nat, minus: nat, plus: nat)
    requires Ready(s) && Split(s, c, k, q, r, minus, plus)
    requires !RoomMinus(s.even, r, minus) && !RoomPlus(s.even, r, plus, s.den)
    ensures NoneInside(s, k + 1)
  {
    forall o: nat, i: nat | i < k + 1
      ensures !Inside(s, o, i)
    {
      if i == k && Inside(s, o, k) { Screened(s, c, k, q, r, minus, plus, o); }
    }
  }

  /** One more round of the loop. */
  lemma {:induction false} Continue(s: Scaled, c: nat, k: nat, q: nat, r: nat, minus: nat, plus: nat)
    requires Ready(s) && Split(s, c, k, q, r, minus, plus)
    requires !RoomMinus(s.even, r, minus) && !RoomPlus(s.even, r, plus, s.den)
    ensures Generating(s, 10 * c + q, k + 1, 10 * r, 10 * minus, 10 * plus)
    ensures minus <= r && plus <= s.den
  {
    hide Pow, NoneInside;
    SplitSum(s, c, k, q, r, minus, plus);
    StillNone(s, c, k, q, r, minus, plus);
    DigitRange(s, c, k, q, r, minus, plus);
    PowStep(k);
    TenOut(s.num, Pow(10, k));
    TenOut(s.minus, Pow(10, k));
    TenOut(s.plus, Pow(10, k));
    if k == 0 {
      if q == 0 { FirstDigit(s, r, minus, plus); }
    } else {
      PowStep(k - 1);
    }
  }

  lemma {:induction false} PowStep(k: nat)
    ensures Pow(10, k + 1) == 10 * Pow(10, k)
    ensures k == 0 ==> Pow(10, k) == 1
  {
  }

  /** A leading zero can only be rounded up. */
  lemma {:induction false} FirstDigit(s: Scaled, r: nat, minus: nat, plus: nat)
    requires Ready(s) && Split(s, 0, 0, 0, r, minus, plus)
    ensures !RoomMinus(s.even, r, minus) && RoomPlus(s.even, r, plus, s.den)
  {
  }

  /** A nine is never incremented: the next decade would have been inside one round earlier. */
  lemma {:induction false} NineIsNotRounded(s: Scaled, c: nat, k: nat, r: nat, minus: nat, plus: nat)
    requires Ready(s) && Split(s, c, k, 9, r, minus, plus)
    ensures !RoomPlus(s.even, r, plus, s.den)
  {
    hide Pow;
    Neighbours(s, c, k, 9, r, minus, plus);
    if k > 0 { CoarserInside(s, c + 1, k - 1); }
  }

  lemma {:induction false} CoarserInside(s: Scaled, c: nat, j: nat)
    ensures Inside(s, 10 * c, j + 1) <==> Inside(s, c, j)
  {
    hide Pow;
    PowStep(j);
    TenOut(s.num, Pow(10, j));
    TenOut(s.minus, Pow(10, j));
    TenOut(s.plus, Pow(10, j));
    assert (10 * c) * s.den == 10 * (c * s.den);
  }

  /** What the loop decides when it stops. */
  function Rounded(c1: nat, r: nat, den: nat, down: bool, up: bool): nat {
    if down && up then
      if r + r < den then c1 else if r + r > den then c1 + 1 else if c1 % 2 == 0 then c1 else c1 + 1
    else if down then c1 else c1 + 1
  }

  lemma {:induction false} StopRange(s: Scaled, c: nat, k: nat, q: nat, r: nat, minus: nat, plus: nat)
    requires Ready(s) && Split(s, c, k, q, r, minus, plus)
    requires RoomMinus(s.even, r, minus) || RoomPlus(s.even, r, plus, s.den)
    ensures var o := Rounded(10 * c + q, r, s.den, RoomMinus(s.even, r, minus), RoomPlus(s.even, r, plus, s.den));
            Pow(10, k) <= o < Pow(10, k + 1) && (o == 10 * c + q + 1 ==> q < 9)
  {
    hide Pow, NoneInside;
    DigitRange(s, c, k, q, r, minus, plus);
    PowStep(k);
    if q == 9 { NineIsNotRounded(s, c, k, r, minus, plus); }
    if k == 0 {
      if q == 0 { FirstDigit(s, r, minus, plus); }
    } else {
      PowStep(k - 1);
    }
  }

  lemma {:induction false} Stop(s: Scaled, c: nat, k: nat, q: nat, r: nat, minus: nat, plus: nat)
    requires Ready(s) && Split(s, c, k, q, r, minus, plus)
    requires RoomMinus(s.even, r, minus) || RoomPlus(s.even, r, plus, s.den)
    ensures IsShortest(s, Rounded(10 * c + q, r, s.den, RoomMinus(s.even, r, minus), RoomPlus(s.even, r, plus, s.den)),
                       k + 1)
  {
    hide Pow;
    var c1, down, up := 10 * c + q, RoomMinus(s.even, r, minus), RoomPlus(s.even, r, plus, s.den);
    var result := Rounded(c1, r, s.den, down, up);
    StopRange(s, c, k, q, r, minus, plus);
    Neighbours(s, c, k, q, r, minus, plus);
    assert Inside(s, result, k);
    forall o: nat | Inside(s, o, k)
      ensures Off(s, result, k) <= Off(s, o, k)
      ensures o != result && Off(s, result, k) == Off(s, o, k) ==> result % 2 == 0
    {
      StopClosest(s, c, k, q, r, minus, plus, o);
    }
  }

  lemma {:induction false} StopClosest(s: Scaled, c: nat, k: nat, q: nat, r: nat, minus: nat, plus: nat, o: nat)
    requires Ready(s) && Split(s, c, k, q, r, minus, plus) && Inside(s, o, k)
    ensures var result := Rounded(10 * c + q, r, s.den, RoomMinus(s.even, r, minus), RoomPlus(s.even, r, plus, s.den));
            Off(s, result, k) <= Off(s, o, k) && (o != result && Off(s, result, k) == Off(s, o, k) ==> result % 2 == 0)
  {
    hide Off, Inside, Split;
    Screened(s, c, k, q, r, minus, plus, o);
  }

}
