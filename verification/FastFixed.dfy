/** Fixed-point digits in 64- and 128-bit arithmetic. */
module FastFixed {
  import opened Arith
  import opened Powers
  import opened RealPowers
  import opened Decimals
  import opened Ieee
  import opened DiyFps
  import opened DecimalRounding
  import opened CountedDigits
  import opened FixedDigits
  import opened FastCounted
  import opened Wide
  import opened DigitFilling
  import DigitGeneration

  /** Adds one in the last place; an empty buffer stands for zero. */
  method RoundUp(buffer: array<char>, lengthIn: nat, decimalPointIn: int) returns (length: nat, decimalPoint: int)
    requires lengthIn <= buffer.Length && 0 < buffer.Length && AllDigits(buffer[..lengthIn]) &&
             (lengthIn == 0 ==> decimalPointIn == 0)
    modifies buffer
    ensures lengthIn <= length <= buffer.Length && length <= lengthIn + 1 && (lengthIn > 0 ==> length == lengthIn) &&
            AllDigits(buffer[..length])
    ensures length - decimalPoint <= lengthIn - decimalPointIn
    ensures Decimal(DecimalValue(buffer[..length]),
                    decimalPoint - length) == Decimal(old(DecimalValue(buffer[..lengthIn])) + 1,
                    decimalPointIn - lengthIn)
  {
    hide DecimalValue, Decimal;
    if lengthIn == 0 {
      DecimalEmpty(buffer[..0]);
      buffer[0] := '1';
      SingleOne(buffer[..1]);
      return 1, 1;
    }
    length, decimalPoint := lengthIn, decimalPointIn;
    var overflow := IncrementLast(buffer, length);
    if overflow {
      decimalPoint := decimalPoint + 1;
      CoarseDecimal(DecimalValue(buffer[..length]), decimalPointIn - length, 1);
      PowTenStep(0);
      PowBasics(10);
    }
  }

  /** i digits after the point have been taken from total / 2^bits, c being all digits; what is left is left / 2^(bits -
      i). */
  ghost predicate Filling(total: int, bits: nat, c: nat, left: int, i: nat) {
    i <= bits && 0 <= left < Pow(2, bits - i) && total * Pow(10, i) == c * Pow(2, bits) + left * Pow(2, i)
  }

  /** Multiplying by five moves the point by one place. */
  lemma {:induction false} FillStep(total: int, bits: nat, c: nat, left: int, i: nat, p: int)
    requires Filling(total, bits, c, left, i) && i < bits && p == Pow(2, bits - i - 1)
    ensures p > 0 && 0 <= left * 5 / p <= 9
    ensures Filling(total, bits, c * 10 + left * 5 / p, left * 5 % p, i + 1)
  {
    hide Pow;
    PowAdd(2, bits - i - 1, 1);
    PowAdd(2, i, 1);
    PowAdd(10, i, 1);
    PowAdd(2, bits - i - 1, i + 1);
    Ones();
    var n := left * 5;
    var d, r := n / p, n % p;
    assert n == d * p + r;
    if d > 9 { MulMono(10, d, p); }
    if d < 0 { MulMono(d, -1, p); }
    FiveTimes(total, Pow(10, i), c, Pow(2, bits), left, Pow(2, i), d, p, r);
  }

  lemma {:induction false} Ones()
    ensures Pow(2, 1) == 2 && Pow(10, 1) == 10 && Pow(2, 0) == 1 && Pow(10, 0) == 1
  {
  }

  lemma {:induction false} FiveTimes(total: int, t: int, c: int, b: int, left: int, u: int, d: int, p: int, r: int)
    requires total * t == c * b + left * u && left * 5 == d * p + r && p * (u * 2) == b
    ensures total * (t * 10) == (c * 10 + d) * b + r * (u * 2)
  {
    assert total * (t * 10) == 10 * (total * t);
    assert (left * u) * 10 == (left * 5) * (u * 2);
    assert (d * p + r) * (u * 2) == d * (p * (u * 2)) + r * (u * 2);
  }

  lemma {:induction false} FillStart(total: int, bits: nat, c: nat, left: int)
    requires total == c * Pow(2, bits) + left && 0 <= left < Pow(2, bits)
    ensures Filling(total, bits, c, left, 0)
  {
  }

  /** The digits that have been taken, rounded by the next bit, are the number rounded half up. */
  lemma {:induction false} FillEnd(x: real, total: nat, bits: nat, c: nat, left: int, i: nat, count: nat, up: bool)
    requires Filling(total, bits, c, left, i) && x * Pow(2, bits) as real == total as real && i <= count &&
             (i == count || left == 0)
    requires up <==> 2 * left >= Pow(2, bits - i)
    ensures RoundedAt(x, count) == Decimal(if up then c + 1 else c, 0 - i)
  {
    hide Pow, Exp, RoundedAt, HalfUp, Decimal;
    var r := if up then c + 1 else c;
    PowAdd(2, bits - i, i);
    Ones();
    LeftCompare(left, Pow(2, bits - i), Pow(2, i));
    Shifted10(x, total, Pow(2, bits), i);
    MulMono(0, total, Pow(10, i));
    FractionHalfUp(r, total * Pow(10, i), Pow(2, bits), x * Exp(10, i));
    if i == count {
      RoundedHere(x, i, r);
    } else {
      NothingLeft(Pow(2, bits), x * Exp(10, i), c, total * Pow(10, i));
      RoundedFiner(x, i, count, c);
    }
  }

  lemma {:induction false} LeftCompare(left: int, p: int, q: int)
    requires 0 <= left < p && q > 0
    ensures 2 * left >= p <==> 2 * (left * q) >= p * q
    ensures 0 <= left * q < p * q
  {
    MulMono(0, left, q);
    MulStrict(left, p, q);
    if 2 * left >= p { MulMono(p, 2 * left, q); } else { MulStrict(2 * left, p, q); }
  }

  lemma {:induction false} Shifted10(x: real, total: int, b: int, i: nat)
    requires x * b as real == total as real
    ensures b as real * (x * Exp(10, i)) == (total * Pow(10, i)) as real
  {
    hide Pow, Exp;
    ExpNat(10, i);
    CastProduct(total, Pow(10, i));
    Swapped3(x, b as real, Exp(10, i));
  }

  lemma {:induction false} Swapped3(x: real, b: real, e: real)
    ensures b * (x * e) == (x * b) * e
  {
  }

  lemma {:induction false} RoundedHere(x: real, i: nat, r: nat)
    requires HalfUp(x * Exp(10, i)) == r
    ensures RoundedAt(x, i) == Decimal(r, 0 - i)
  {
    hide Exp, HalfUp;
  }

  lemma {:induction false} NothingLeft(b: int, y: real, c: int, n: int)
    requires b > 0 && b as real * y == n as real && n == c * b
    ensures y == c as real
  {
    CastProduct(c, b);
    ScaleOrder(y, c as real, b as real);
  }

  lemma {:induction false} RoundedFiner(x: real, i: nat, count: nat, c: nat)
    requires x * Exp(10, i) == c as real && i <= count
    ensures RoundedAt(x, count) == Decimal(c, 0 - i)
  {
    hide Pow, Exp, HalfUp;
    var k := count - i;
    ExpAdd(10, i, k);
    ExpNat(10, k);
    CastProduct(c, Pow(10, k));
    RealAssociate(x, Exp(10, i), Exp(10, k));
    WholeHalfUp(c * Pow(10, k));
    CoarseDecimal(c, 0 - count, k);
  }

  lemma {:induction false} WholeHalfUp(n: int)
    ensures HalfUp(n as real) == n
  {
  }

  // ---- The fraction in 64 bits ----

  /** What is left never overflows when multiplied by five: three steps fit in any case, and then the point has moved
      enough. */
  predicate Small(left: int, i: nat, top: int) {
    left < if i == 0 then top else if i == 1 then 5 * top else if i == 2 then 25 * top else 32 * top
  }

  lemma {:induction false} SmallStep(left: int, i: nat, top: int, p: int)
    requires 0 <= left && Small(left, i, top) && p > 0 && top > 0 && (i >= 2 ==> p <= 32 * top)
    ensures left * 5 < 160 * top && Small(left * 5 % p, i + 1, top)
  {
    var n := left * 5;
    var d, r := n / p, n % p;
    assert n == d * p + r;
    if d < 0 { MulMono(d, -1, p); }
    MulMono(0, d, p);
  }

  /** Splits a number at a binary point: the digit before it, and the rest. */
  method SplitAt(fractionals: uint64, point: nat) returns (digit: uint64, rest: uint64)
    requires point < 64
    ensures digit as int == fractionals as int / Pow(2, point) && rest as int == fractionals as int % Pow(2, point)
  {
    hide Pow;
    TwosTo(point);
    RemainderOf(fractionals as int, Pow(2, point));
    var p := Pow(2, point) as uint64;
    digit := fractionals / p;
    rest := fractionals - digit * p;
  }

  lemma {:induction false} StartIsSmall(left: int)
    requires left < 0x100_0000_0000_0000
    ensures Small(left, 0, 0x100_0000_0000_0000)
  {
  }

  /** The digits of fractionals / 2^pointIn behind those of the whole number c0. */
  method FillFractionals64(fractionalsIn: uint64, pointIn: nat, fractionalCount: nat, buffer: array<char>,
                           lengthIn: nat, ghost total: nat)
    returns (length: nat, up: bool, i: nat, ghost left: int)
    requires pointIn <= 64 && fractionalsIn < 0x100_0000_0000_0000 && fractionalsIn as int < Pow(2, pointIn)
    requires lengthIn + fractionalCount <= buffer.Length && AllDigits(buffer[..lengthIn])
    requires total == DecimalValue(buffer[..lengthIn]) * Pow(2, pointIn) + fractionalsIn as int
    modifies buffer
    ensures i <= fractionalCount && length == lengthIn + i && AllDigits(buffer[..length]) &&
            (i == fractionalCount || left == 0)
    ensures Filling(total, pointIn, DecimalValue(buffer[..length]), left, i) &&
            (up <==> 2 * left >= Pow(2, pointIn - i))
  {
    hide Pow, DecimalValue, Filling, Small;
    StartIsSmall(fractionalsIn as int);
    var fractionals, point := fractionalsIn, pointIn;
    length, i := lengthIn, 0;
    FillStart(total, pointIn, DecimalValue(buffer[..length]), fractionals as int);
    Ones();
    while i < fractionalCount
      invariant i <= fractionalCount && i <= pointIn && point == pointIn - i && length == lengthIn + i &&
                AllDigits(buffer[..length])
      invariant Filling(total, pointIn, DecimalValue(buffer[..length]), fractionals as int, i)
      invariant Small(fractionals as int, i, 0x100_0000_0000_0000)
    {
      if fractionals == 0 {
        break;
      }
      LeftBounds(total, pointIn, DecimalValue(buffer[..length]), fractionals as int, i);
      FillStep(total, pointIn, DecimalValue(buffer[..length]), fractionals as int, i, Pow(2, point - 1));
      PointLow(point - 1, i);
      SmallStep(fractionals as int, i, 0x100_0000_0000_0000, Pow(2, point - 1));
      ghost var before := buffer[..];
      fractionals := fractionals * 5;
      point := point - 1;
      var digit, rest := SplitAt(fractionals, point);
      buffer[length] := ('0' as int + digit as int) as char;
      DigitGeneration.AppendDigit(before, buffer[..], length, digit as int);
      length := length + 1;
      fractionals := rest;
      i := i + 1;
    }
    left := fractionals as int;
    LeftBounds(total, pointIn, DecimalValue(buffer[..length]), left, i);
    up := false;
    if point > 0 {
      NextBit(left, point);
      var bit, _ := SplitAt(fractionals, point - 1);
      up := bit % 2 == 1;
    }
  }

  lemma {:induction false} LeftBounds(total: int, bits: nat, c: nat, left: int, i: nat)
    requires Filling(total, bits, c, left, i)
    ensures i <= bits && 0 <= left < Pow(2, bits - i) && (left > 0 ==> i < bits) && (i == bits ==> left == 0)
  {
    Ones();
  }

  lemma {:induction false} PointLow(p: nat, i: nat)
    requires p < 64 - i
    ensures i >= 2 ==> Pow(2, p) <= 32 * 0x100_0000_0000_0000
  {
    hide Pow;
    if i >= 2 {
      PowMono(2, p, 61);
      TwoTo61();
    }
  }

  lemma {:induction false} TwoTo61()
    ensures Pow(2, 61) == 0x2000_0000_0000_0000
  {
    hide Pow;
    Pow2Word(64);
    PowAdd(2, 61, 3);
    TwoTo3();
  }

  lemma {:induction false} TwoTo3()
    ensures Pow(2, 3) == 8
  {
  }

  lemma {:induction false} RemainderOf(n: int, p: int)
    requires n >= 0 && p > 0
    ensures n - n / p * p == n % p && 0 <= n / p * p <= n
  {
    QuotientFits(n, p);
  }

  lemma {:induction false} NextBit(left: int, point: nat)
    requires point > 0 && 0 <= left < Pow(2, point)
    ensures left / Pow(2, point - 1) % 2 == 1 <==> 2 * left >= Pow(2, point)
  {
    hide Pow;
    PowAdd(2, point - 1, 1);
    Ones();
    var p := Pow(2, point - 1);
    var q := left / p;
    assert left == q * p + left % p;
    if q >= 2 { MulMono(2, q, p); }
    if q < 0 { MulMono(q, -1, p); }
  }

  // ---- The fraction in 128 bits ----

  const TOP120: int := 0x100_0000_0000_0000_0000_0000_0000_0000

  lemma {:induction false} WideStart(fractionals: int, bits: nat, c: nat)
    requires 64 < bits <= 128 && 0 <= fractionals < 0x100_0000_0000_0000 && fractionals < Pow(2, bits)
    ensures 0 < bits - 64 <= 64 && fractionals * TWO64 / Pow(2, bits - 64) == fractionals * Pow(2, 128 - bits)
    ensures Filling((c * Pow(2, bits) + fractionals) * Pow(2, 128 - bits), 128, c, fractionals * Pow(2, 128 - bits), 0)
    ensures Small(fractionals * Pow(2, 128 - bits), 0, TOP120)
  {
    hide Pow;
    TwosTo(bits - 64);
    var p, q := Pow(2, bits - 64), Pow(2, 128 - bits);
    MulMono(0, fractionals, q);
    Exact(fractionals, p, q);
    DivModUnique(fractionals * TWO64, p, fractionals * q, 0);
    PowAdd(2, bits, 128 - bits);
    MulStrict(fractionals, Pow(2, bits), q);
    TimesSplit(c, Pow(2, bits), fractionals, q);
    PowMono(2, 128 - bits, 63);
    TwoTo63();
    MulMono(q, 0x8000_0000_0000_0000, fractionals);
    FillStart((c * Pow(2, bits) + fractionals) * q, 128, c, fractionals * q);
  }

  lemma {:induction false} Exact(f: int, p: int, q: int)
    requires p * q == TWO64
    ensures f * TWO64 == (f * q) * p
  {
    assert (f * q) * p == f * (p * q);
  }

  lemma {:induction false} TwoTo63()
    ensures Pow(2, 63) == 0x8000_0000_0000_0000 && Pow(2, 128) == TWO128 && Pow(2, 125) == 32 * TOP120
  {
    hide Pow;
    Pow2Word(64);
    Ones();
    PowAdd(2, 63, 1);
    PowAdd(2, 64, 64);
    TwoTo61();
    PowAdd(2, 61, 64);
  }

  lemma {:induction false} WidePoint(i: nat, left: int, top: int)
    requires i < 20 && 0 <= left && Small(left, i, TOP120)
    ensures left * 5 < TWO128
    ensures i >= 2 ==> Pow(2, 128 - i - 1) <= 32 * TOP120
  {
    hide Pow;
    TwoTo63();
    if i >= 2 { PowMono(2, 128 - i - 1, 125); }
  }

  method FillFractionals128(fractionals: uint64, bits: nat, fractionalCount: nat, buffer: array<char>, lengthIn: nat,
                            ghost total: nat)
    returns (length: nat, up: bool, i: nat, ghost left: int)
    requires 64 < bits <= 128 && fractionalCount <= 20 && fractionals < 0x100_0000_0000_0000 &&
             fractionals as int < Pow(2, bits)
    requires lengthIn + fractionalCount <= buffer.Length && AllDigits(buffer[..lengthIn])
    requires total == DecimalValue(buffer[..lengthIn]) * Pow(2, bits) + fractionals as int
    modifies buffer
    ensures i <= fractionalCount && length == lengthIn + i && AllDigits(buffer[..length]) &&
            (i == fractionalCount || left == 0)
    ensures Filling(total * Pow(2, 128 - bits), 128, DecimalValue(buffer[..length]), left, i) &&
            (up <==> 2 * left >= Pow(2, 128 - i))
  {
    hide Pow, DecimalValue, Filling, Small, UInt128.Value;
    var fractionals128 := new UInt128(fractionals, 0);
    WideStart(fractionals as int, bits, DecimalValue(buffer[..lengthIn]));
    fractionals128.Shift(bits - 64);
    var point := 128;
    length, i := lengthIn, 0;
    while i < fractionalCount
      invariant i <= fractionalCount && point == 128 - i && length == lengthIn + i && AllDigits(buffer[..length]) &&
                fresh(fractionals128)
      invariant Filling(total * Pow(2, 128 - bits), 128, DecimalValue(buffer[..length]), fractionals128.Value(), i)
      invariant Small(fractionals128.Value(), i, TOP120)
    {
      var empty := fractionals128.IsZero();
      if empty {
        break;
      }
      ghost var before, had := buffer[..], fractionals128.Value();
      WidePoint(i, had, TOP120);
      FillStep(total * Pow(2, 128 - bits), 128, DecimalValue(buffer[..length]), had, i, Pow(2, point - 1));
      SmallStep(had, i, TOP120, Pow(2, point - 1));
      fractionals128.Multiply(5);
      point := point - 1;
      var digit := fractionals128.DivModPowerOf2(point);
      buffer[length] := ('0' as int + digit) as char;
      DigitGeneration.AppendDigit(before, buffer[..], length, digit);
      length := length + 1;
      i := i + 1;
    }
    left := fractionals128.Value();
    LeftBounds(total * Pow(2, 128 - bits), 128, DecimalValue(buffer[..length]), left, i);
    NextBit(left, point);
    var bit := fractionals128.BitAt(point - 1);
    up := bit == 1;
  }

  lemma {:induction false} WholeAndFraction(x: real, c: nat, f: nat, exponent: int)
    requires exponent <= 0 && x == c as real + f as real * Exp(2, exponent)
    ensures x * Pow(2, -exponent) as real == (c * Pow(2, -exponent) + f) as real
  {
    hide Pow, Exp;
    ExpNeg(2, exponent);
    ExpNat(2, -exponent);
    CastProduct(c, Pow(2, -exponent));
    Cleared(c as real, f as real, Exp(2, exponent), Pow(2, -exponent) as real);
  }

  lemma {:induction false} Cleared(c: real, f: real, e: real, p: real)
    requires e * p == 1.0
    ensures (c + f * e) * p == c * p + f
  {
    assert (c + f * e) * p == c * p + f * (e * p);
  }

  lemma {:induction false} Widened(x: real, p: int, total: int, q: int, b: int)
    requires x * p as real == total as real && p * q == b
    ensures x * b as real == (total * q) as real
  {
    CastProduct(p, q);
    CastProduct(total, q);
    RealAssociate(x, p as real, q as real);
  }

  /** Appends the digits of a binary fraction, rounded half up at the given place. */
  method FillFractionals(fractionals: uint64, exponent: int, fractionalCount: nat, buffer: array<char>, lengthIn: nat,
                         decimalPointIn: int, ghost x: real)
    returns (length: nat, decimalPoint: int)
    requires -128 <= exponent <= 0 && fractionals < 0x100_0000_0000_0000 && fractionals as int < Pow(2, -exponent) &&
             fractionalCount <= 20
    requires lengthIn + fractionalCount <= buffer.Length && 0 < buffer.Length && AllDigits(buffer[..lengthIn]) &&
             decimalPointIn == lengthIn
    requires x == DecimalValue(buffer[..lengthIn]) as real + fractionals as real * Exp(2, exponent)
    modifies buffer
    ensures (length <= lengthIn + fractionalCount || length == 1) && length - decimalPoint <= fractionalCount
    ensures length <= buffer.Length && AllDigits(buffer[..length])
    ensures Decimal(DecimalValue(buffer[..length]), decimalPoint - length) == RoundedAt(x, fractionalCount)
  {
    hide Pow, DecimalValue, Exp, Filling, RoundedAt, Decimal;
    ghost var total := DecimalValue(buffer[..lengthIn]) * Pow(2, -exponent) + fractionals as int;
    WholeAndFraction(x, DecimalValue(buffer[..lengthIn]), fractionals as nat, exponent);
    MulMono(0, DecimalValue(buffer[..lengthIn]), Pow(2, -exponent));
    var up, i;
    ghost var left;
    if -exponent <= 64 {
      length, up, i, left := FillFractionals64(fractionals, -exponent, fractionalCount, buffer, lengthIn, total);
      FillEnd(x, total, -exponent, DecimalValue(buffer[..length]), left, i, fractionalCount, up);
    } else {
      length, up, i, left := FillFractionals128(fractionals, -exponent, fractionalCount, buffer, lengthIn, total);
      PowAdd(2, -exponent, 128 + exponent);
      Widened(x, Pow(2, -exponent), total, Pow(2, 128 + exponent), Pow(2, 128));
      MulMono(0, total, Pow(2, 128 + exponent));
      FillEnd(x, total * Pow(2, 128 + exponent), 128, DecimalValue(buffer[..length]), left, i, fractionalCount, up);
    }
    decimalPoint := decimalPointIn;
    if up {
      length, decimalPoint := RoundUp(buffer, length, decimalPoint);
    }
  }

  // ---- Trimming ----

  lemma {:induction false} TrailingZero(s: seq<char>, e: int)
    requires AllDigits(s) && |s| > 0 && s[|s| - 1] == '0'
    ensures Decimal(DecimalValue(s), e) == Decimal(DecimalValue(s[..|s| - 1]), e + 1)
  {
    hide Exp;
    DecimalSnoc(s, |s| - 1);
    assert s[..|s|] == s;
    CoarseDecimal(DecimalValue(s[..|s| - 1]), e, 1);
    Ones();
  }

  lemma {:induction false} LeadingZeros(s: seq<char>, k: nat)
    requires AllDigits(s) && k <= |s| && forall i :: 0 <= i < k ==> s[i] == '0'
    ensures DecimalValue(s[k..]) == DecimalValue(s)
    decreases k
  {
    hide Pow, DecimalValue;
    if k == 0 {
      assert s[0..] == s;
    } else {
      LeadingZeros(s, k - 1);
      assert s[k - 1..] == ['0'] + s[k..];
      FrontDigit('0', s[k..]);
    }
  }

  /** Moves the digits from `first` on to the front. */
  method MoveToFront(buffer: array<char>, first: nat, length: nat)
    requires first <= length <= buffer.Length
    modifies buffer
    ensures buffer[..length - first] == old(buffer[first..length])
  {
    ghost var s := buffer[..length];
    for i := first to length
      invariant forall k :: i <= k < length ==> buffer[k] == s[k]
      invariant forall k :: 0 <= k < i - first ==> buffer[k] == s[k + first]
    {
      buffer[i - first] := buffer[i];
    }
  }

  /** Removes zeros at both ends; the number stays the same. */
  method TrimZeros(buffer: array<char>, lengthIn: nat, decimalPointIn: int) returns (length: nat, decimalPoint: int)
    requires lengthIn <= buffer.Length && AllDigits(buffer[..lengthIn])
    modifies buffer
    ensures length <= lengthIn && AllDigits(buffer[..length]) && length - decimalPoint <= lengthIn - decimalPointIn
    ensures length > 0 ==> buffer[0] != '0' && buffer[length - 1] != '0'
    ensures Decimal(DecimalValue(buffer[..length]),
                    decimalPoint - length) == old(Decimal(DecimalValue(buffer[..lengthIn]), decimalPointIn - lengthIn))
  {
    hide DecimalValue, Decimal;
    length, decimalPoint := lengthIn, decimalPointIn;
    while length > 0 && buffer[length - 1] == '0'
      invariant length <= lengthIn && decimalPoint == decimalPointIn && buffer[..] == old(buffer[..]) &&
                AllDigits(buffer[..length])
      invariant Decimal(DecimalValue(buffer[..length]),
                        decimalPoint - length) == old(Decimal(DecimalValue(buffer[..lengthIn]),
                            decimalPointIn - lengthIn))
    {
      TrailingZero(buffer[..length], decimalPoint - length);
      assert buffer[..length][..length - 1] == buffer[..length - 1];
      length := length - 1;
    }
    var firstNonZero := 0;
    while firstNonZero < length && buffer[firstNonZero] == '0'
      invariant firstNonZero <= length && forall i :: 0 <= i < firstNonZero ==> buffer[i] == '0'
    {
      firstNonZero := firstNonZero + 1;
    }
    LeadingZeros(buffer[..length], firstNonZero);
    if firstNonZero != 0 {
      ghost var s := buffer[..length];
      assert buffer[firstNonZero..length] == s[firstNonZero..];
      MoveToFront(buffer, firstNonZero, length);
      length := length - firstNonZero;
      decimalPoint := decimalPoint - firstNonZero;
      if length > 0 { assert buffer[..length][0] == s[firstNonZero] && buffer[..length][length - 1] == s[|s| - 1]; }
    }
  }
}
