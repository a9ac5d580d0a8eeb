/** Digits of a double by the fast algorithms where they succeed, and by exact arithmetic where they do not. */
module DoubleToDigits {
  import opened Arith
  import opened RealPowers
  import opened Decimals
  import opened Ieee
  import opened DecimalRounding
  import opened FixedDigits
  import opened Dtoa
  import opened FastStrtod
  import opened FastPrinter
  import opened FastPrecision
  import opened FastFixedPrinter

  function Magnitude(v: Double): Double {
    Double(v.d64 % SIGN_BIT)
  }

  lemma {:induction false} MagnitudeIsFinite(v: Double)
    requires !v.IsSpecial()
    ensures Magnitude(v).Finite() && Magnitude(v).Significand() == v.Significand() &&
            Magnitude(v).Exponent() == v.Exponent()
  {
    var h := v.d64 as int / 0x8000_0000_0000_0000;
    assert v.d64 as int == h * 0x8000_0000_0000_0000 + Magnitude(v).d64 as int;
    assert v.d64 as int / 0x10_0000_0000_0000 == h * 0x800 + Magnitude(v).d64 as int / 0x10_0000_0000_0000;
  }

  /** The room every path needs. */
  ghost predicate DigitRoom(v: Double, mode: DtoaMode, requestedDigits: int, size: nat) {
    && size >= 2
    && match mode
       case ShortestMode => size > 17
       case FixedMode => requestedDigits >= 0 && BufferFits(v, mode, requestedDigits, size) &&
           FixedRoom(v, requestedDigits, size)
       case PrecisionMode => 0 <= requestedDigits < size
  }

  method FastDigits(v: Double, mode: DtoaMode, requestedDigits: int, table: seq<DiyFp>, index: nat, buffer: array<char>)
    returns (fastWorked: bool, length: nat, point: int)
    requires 0 < v.d64 && v.Finite() && AccurateTable(table) && InTargetRange(v, table, index) &&
             DigitRoom(v, mode, requestedDigits, buffer.Length)
    requires mode.PrecisionMode? ==> requestedDigits > 0
    modifies buffer
    ensures fastWorked ==> length < buffer.Length && AllDigits(buffer[..length]) && buffer[length] == '\0'
    ensures fastWorked ==> IsDtoa(v, mode, requestedDigits, buffer[..length], point)
  {
    hide DecimalValue, AccurateTable, InTargetRange, BufferFits, FixedRoom, IsShortestDecimal, InDecade, RoundedAt,
         Decimal, Double.Value, Double.Exponent, Pow;
    match mode
    case ShortestMode => fastWorked, length, point := FastDtoa(v, buffer, table, index);
    case FixedMode => fastWorked, length, point := FastFixedDtoa(v, requestedDigits, buffer);
    case PrecisionMode => fastWorked, length, point := FastDtoaPrecision(v, requestedDigits, buffer, table, index);
  }

  /** The digits of v in the given mode. The product is the one of the power estimate, the index that of the cached
      power. */
  method DoubleToAscii(v: Double, mode: DtoaMode, requestedDigits: int, product: real, table: seq<DiyFp>, index: nat,
                       buffer: array<char>)
    returns (sign: bool, length: nat, point: int)
    requires !v.IsSpecial() && AccurateTable(table) && DigitRoom(Magnitude(v), mode, requestedDigits, buffer.Length)
    requires Magnitude(v).d64 > 0 ==> ProductFor(Magnitude(v), product) && InTargetRange(Magnitude(v), table, index)
    modifies buffer
    ensures sign <==> v.Sign() < 0
    ensures length < buffer.Length && AllDigits(buffer[..length]) && buffer[length] == '\0'
    ensures mode.PrecisionMode? && requestedDigits == 0 ==> length == 0
    ensures !(mode.PrecisionMode? && requestedDigits == 0) && Magnitude(v).d64 == 0 ==>
            buffer[..length] == "0" && point == 1
    ensures !(mode.PrecisionMode? && requestedDigits == 0) && Magnitude(v).d64 > 0 ==>
              IsDtoa(Magnitude(v), mode, requestedDigits, buffer[..length], point)
  {
    hide DecimalValue, AccurateTable, InTargetRange, BufferFits, FixedRoom, IsDtoa, ProductFor;
    MagnitudeIsFinite(v);
    var w := Magnitude(v);
    sign := v.Sign() < 0;
    if mode.PrecisionMode? && requestedDigits == 0 {
      buffer[0] := '\0';
      return sign, 0, 0;
    }
    if w.d64 == 0 {
      buffer[0] := '0';
      buffer[1] := '\0';
      return sign, 1, 1;
    }
    var fastWorked;
    fastWorked, length, point := FastDigits(w, mode, requestedDigits, table, index, buffer);
    if fastWorked {
      return;
    }
    RoomForBignum(w, mode, requestedDigits, buffer.Length);
    length, point := BignumDtoa(w, mode, requestedDigits, product, buffer);
    ghost var digits := buffer[..length];
    buffer[length] := '\0';
    assert buffer[..length] == digits;
  }

  lemma {:induction false} RoomForBignum(v: Double, mode: DtoaMode, requestedDigits: int, size: nat)
    requires DigitRoom(v, mode, requestedDigits, size) && (mode.PrecisionMode? ==> requestedDigits > 0)
    ensures BufferFits(v, mode, requestedDigits, size)
  {
    hide FixedRoom;
  }

  // ---- It does not matter which path was taken ----

  /** There is one shortest digit string and one place for its point: the fast and the exact algorithm cannot differ. */
  lemma {:induction false} ShortestDigitsUnique(v: Double, s: seq<char>, p: int, t: seq<char>, q: int, digits: int)
    requires AllDigits(s) && AllDigits(t) && IsDtoa(v, ShortestMode, digits, s, p) &&
             IsDtoa(v, ShortestMode, digits, t, q)
    ensures s == t && p == q
  {
    hide DecimalValue, IsShortestDecimal;
    ShortestDecimalUnique(v, DecimalValue(s), |s|, p, DecimalValue(t), |t|, q);
    DigitsDetermined(s, t);
  }

  /** The same for a given number of digits, wherever the number lies. */
  lemma {:induction false} PrecisionDigitsUnique(v: Double, s: seq<char>, p: int, t: seq<char>, q: int, digits: int,
                                                 point: int)
    requires AllDigits(s) && AllDigits(t) && IsDtoa(v, PrecisionMode, digits, s, p) &&
             IsDtoa(v, PrecisionMode, digits, t, q) && InDecade(v, point)
    ensures s == t && p == q
  {
    hide DecimalValue, RoundedAt, InDecade, Pow, Decimal;
    var n := |s|;
    DecimalBound(s);
    DecimalBound(t);
    SameDecimal(DecimalValue(s), p, DecimalValue(t), q, n);
    SameDecimal(DecimalValue(t), q, DecimalValue(s), p, n);
    DecimalInjective(DecimalValue(s), DecimalValue(t), p - n);
    DigitsDetermined(s, t);
  }

  lemma {:induction false} SameDecimal(c: nat, p: int, o: nat, q: int, n: nat)
    requires n > 0 && Pow(10, n - 1) <= c && o < Pow(10, n) && Decimal(c, p - n) == Decimal(o, q - n)
    ensures p <= q
  {
    hide Pow, Exp;
    if p > q {
      CoarseDecimal(c, q - n, p - q);
      PowMono(10, 1, p - q);
      Tenfold10(n);
      MulMono(10, Pow(10, p - q), c);
      DecimalGrows(o, c * Pow(10, p - q), q - n);
    }
  }

  lemma {:induction false} Tenfold10(n: nat)
    requires n > 0
    ensures Pow(10, n) == 10 * Pow(10, n - 1) && Pow(10, 1) == 10
  {
    assert Pow(10, 0) == 1;
  }

  function Zeros(n: nat): (s: seq<char>)
    ensures |s| == n
  {
    seq(n, _ => '0')
  }

  lemma {:induction false} ZerosAreZero(s: seq<char>, k: nat)
    requires AllDigits(s)
    ensures AllDigits(s + Zeros(k)) && DecimalValue(s + Zeros(k)) == DecimalValue(s) * Pow(10, k)
    decreases k
  {
    hide Pow;
    if k == 0 {
      assert s + Zeros(0) == s;
      Tenfold10(1);
    } else {
      ZerosAreZero(s, k - 1);
      assert (s + Zeros(k))[..|s| + k - 1] == s + Zeros(k - 1);
      Tenfold10(k);
      TenMore(DecimalValue(s), Pow(10, k - 1));
    }
  }

  lemma {:induction false} TenMore(c: int, p: int)
    ensures c * p * 10 == c * (10 * p)
  {
  }

  /** With a given number of places the digit strings may differ only in zeros at the end. */
  lemma {:induction false} FixedDigitsAgree(v: Double, s: seq<char>, p: int, t: seq<char>, q: int, digits: int)
    requires AllDigits(s) && AllDigits(t) && IsDtoa(v, FixedMode, digits, s, p) &&
             IsDtoa(v, FixedMode, digits, t, q) && |s| <= |t|
    ensures t == s + Zeros(|t| - |s|) && (|s| > 0 ==> p == q)
  {
    hide DecimalValue, RoundedAt, Pow, Decimal;
    var c, o, n, m := DecimalValue(s), DecimalValue(t), |s|, |t|;
    DecimalBound(s);
    DecimalBound(t);
    if n == 0 {
      DecimalEmpty(s);
      OnlyZero(p - n, o, q - m);
      assert t == s + Zeros(0);
    } else {
      SameDecade(c, n, p, o, m, q);
      SameDecade(o, m, q, c, n, p);
      CoarseDecimal(c, p - m, m - n);
      DecimalInjective(o, c * Pow(10, m - n), p - m);
      ZerosAreZero(s, m - n);
      DigitsDetermined(t, s + Zeros(m - n));
    }
  }

  lemma {:induction false} OnlyZero(e: int, o: nat, j: int)
    requires Decimal(0, e) == Decimal(o, j)
    ensures o == 0
  {
    hide Exp;
  }

  /** Equal numbers without leading zeros have their points at the same place. */
  lemma {:induction false} SameDecade(c: nat, n: nat, p: int, o: nat, m: nat, q: int)
    requires n > 0 && m > 0 && Pow(10, n - 1) <= c && o < Pow(10, m) && Decimal(c, p - n) == Decimal(o, q - m)
    ensures p <= q
  {
    hide Pow, Exp;
    if p > q {
      InDecadeBelow(o, m, q);
      InDecadeAbove(c, n, p);
      if q < p - 1 { ExpMono(10, q, p - 1); }
    }
  }

  lemma {:induction false} InDecadeBelow(o: nat, m: nat, q: int)
    requires o < Pow(10, m)
    ensures Decimal(o, q - m) < Exp(10, q)
  {
    hide Pow, Exp;
    ExpNat(10, m);
    ExpAdd(10, m, q - m);
    ScaleOrder(o as real, Pow(10, m) as real, Exp(10, q - m));
  }

  lemma {:induction false} InDecadeAbove(c: nat, n: nat, p: int)
    requires n > 0 && Pow(10, n - 1) <= c
    ensures Decimal(c, p - n) >= Exp(10, p - 1)
  {
    hide Pow, Exp;
    ExpNat(10, n - 1);
    ExpAdd(10, n - 1, p - n);
    assert n - 1 + (p - n) == p - 1;
    ScaleOrder(c as real, Pow(10, n - 1) as real, Exp(10, p - n));
  }
}
