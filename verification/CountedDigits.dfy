/** A given number of digits, rounded half up, with the carry that rounding may send through them. */
module CountedDigits {
  import opened Arith
  import opened Limbs
  import opened Decimals
  import opened LimbArith
  import opened Bignums
  import opened GenerateDigits

  const TEN_CHAR: char := ':'  // the character after '9', a digit of value ten

  /** The value of digits that may include one of value ten. */
  function CarryValue(s: seq<char>): int {
    if |s| == 0 then 0 else CarryValue(s[..|s| - 1]) * 10 + (s[|s| - 1] as int - '0' as int)
  }

  lemma {:induction false} CarryIsDecimal(s: seq<char>)
    requires AllDigits(s)
    ensures CarryValue(s) == DecimalValue(s)
    decreases |s|
  {
    if |s| > 0 { CarryIsDecimal(s[..|s| - 1]); }
  }

  lemma {:induction false} CarryUpdate(s: seq<char>, i: nat, d: char)
    requires i < |s|
    ensures CarryValue(s[i := d]) == CarryValue(s) + (d as int - s[i] as int) * Pow(10, |s| - 1 - i)
    decreases |s|
  {
    var n := |s| - 1;
    if i == n {
      assert s[i := d][..n] == s[..n];
    } else {
      assert s[i := d][..n] == s[..n][i := d];
      CarryUpdate(s[..n], i, d);
      TenWeight(d as int - s[i] as int, Pow(10, n - 1 - i));
    }
  }

  lemma {:induction false} TenWeight(a: int, p: int)
    ensures (a * p) * 10 == a * (10 * p)
  {
  }

  /** A one followed by zeros. */
  lemma {:induction false} LeadingDigitOnly(s: seq<char>)
    requires |s| > 0 && forall j :: 0 < j < |s| ==> s[j] == '0'
    ensures CarryValue(s) == (s[0] as int - '0' as int) * Pow(10, |s| - 1)
    decreases |s|
  {
    if |s| > 1 {
      LeadingDigitOnly(s[..|s| - 1]);
      TenWeight(s[0] as int - '0' as int, Pow(10, |s| - 2));
    } else {
      assert s[..0] == [];
    }
  }

  /** All digits are proper, except that the one at `at` may have the value ten if only zeros follow it. */
  ghost predicate CarryAt(s: seq<char>, at: nat) {
    forall j :: 0 <= j < |s| ==>
      if j == at then '0' <= s[j] <= TEN_CHAR && (s[j] == TEN_CHAR ==> forall i :: j < i < |s| ==> s[i] == '0')
      else '0' <= s[j] <= '9'
  }

  /** Sends a carry in the last digit to the left; a carry out of the first digit becomes a new leading one. */
  method PropagateDigitCarry(buffer: array<char>, length: nat) returns (overflow: bool)
    requires 0 < length <= buffer.Length && CarryAt(buffer[..length], length - 1)
    modifies buffer
    ensures AllDigits(buffer[..length])
    ensures overflow ==>
               old(CarryValue(buffer[..length])) == Pow(10, length) &&
                   DecimalValue(buffer[..length]) == Pow(10, length - 1)
    ensures !overflow ==> DecimalValue(buffer[..length]) == old(CarryValue(buffer[..length]))
  {
    hide CarryValue, Pow;
    var i := length - 1;
    while i > 0 && buffer[i] == TEN_CHAR
      invariant 0 <= i < length && CarryAt(buffer[..length], i)
      invariant CarryValue(buffer[..length]) == old(CarryValue(buffer[..length]))
    {
      ghost var s := buffer[..length];
      CarryUpdate(s, i, '0');
      CarryUpdate(s[i := '0'], i - 1, (buffer[i - 1] as int + 1) as char);
      CarryMoves(length - 1 - i);
      buffer[i] := '0';
      buffer[i - 1] := (buffer[i - 1] as int + 1) as char;
      assert buffer[..length] == s[i := '0'][i - 1 := buffer[i - 1]];
      i := i - 1;
    }
    overflow := buffer[0] == TEN_CHAR;
    ghost var s := buffer[..length];
    if overflow {
      LeadingDigitOnly(s);
      OverflowValue(length);
      buffer[0] := '1';
      LeadingDigitOnly(buffer[..length]);
    }
    CarryIsDecimal(buffer[..length]);
  }

  lemma {:induction false} CarryMoves(k: nat)
    ensures -10 * Pow(10, k) + Pow(10, k + 1) == 0
  {
  }

  lemma {:induction false} OverflowValue(length: nat)
    requires length > 0
    ensures 10 * Pow(10, length - 1) == Pow(10, length)
  {
  }

  /** k digits of value c have been split off; the rest of the fraction stands in num, scaled up. */
  ghost predicate Counting(start: nat, den: nat, c: nat, k: nat, num: nat) {
    && start * Pow(10, k) == 10 * (c * den) + num
    && num < 10 * den
    && (if k == 0 then c == 0 && den <= num else Pow(10, k - 1) <= c < Pow(10, k))
  }

  /** r is the fraction a / b rounded to an integer, halves upwards. */
  ghost predicate HalfUpFraction(r: int, a: int, b: int) {
    2 * r * b - b <= 2 * a < 2 * r * b + b
  }

  /** What a digit q with remainder r leaves to be done. */
  lemma {:induction false} CountingStep(start: nat, den: nat, c: nat, k: nat, q: nat, r: nat)
    requires Counting(start, den, c, k, q * den + r) && r < den
    ensures q <= 9 && Counting(start, den, 10 * c + q, k + 1, 10 * r)
    ensures start * Pow(10, k) == (10 * c + q) * den + r
  {
    hide Pow;
    if q >= 10 { MulMono(10, q, den); }
    assert q == 0 ==> q * den == 0;
    PowTen(k);
    if k > 0 { PowTen(k - 1); }
    CountingSum(start, den, c, Pow(10, k), q, r);
  }

  lemma {:induction false} CountingSum(start: nat, den: nat, c: nat, p: nat, q: nat, r: nat)
    requires start * p == 10 * (c * den) + q * den + r
    ensures start * p == (10 * c + q) * den + r
    ensures start * (10 * p) == 10 * ((10 * c + q) * den) + 10 * r
  {
    assert (10 * c + q) * den == 10 * (c * den) + q * den;
    assert start * (10 * p) == 10 * (start * p);
  }

  lemma {:induction false} PowTen(k: nat)
    ensures Pow(10, k + 1) == 10 * Pow(10, k) && Pow(10, 0) == 1 && Pow(10, 1) == 10
  {
  }

  lemma {:induction false} RoundedUp(a: nat, b: nat, c: nat, r: nat, up: bool)
    requires a == c * b + r && r < b && (up <==> r + r >= b)
    ensures HalfUpFraction(if up then c + 1 else c, a, b)
  {
    assert 2 * c * b == 2 * (c * b);
    assert 2 * (c + 1) * b == 2 * (c * b) + 2 * b;
  }

  /** All digits but the last. */
  method LeadingDigits(count: nat, numerator: Bignum, denominator: Bignum, buffer: array<char>)
    requires numerator.Valid() && denominator.Valid() && numerator.Apart(denominator)
    requires denominator.Value() <= numerator.Value() < 10 * denominator.Value()
    requires Roomy(denominator.Value(), denominator.bigits.Length)
    requires 0 < count <= buffer.Length
    modifies numerator, numerator.bigits, buffer
    ensures numerator.Valid() && AllDigits(buffer[..count - 1])
    ensures Counting(old(numerator.Value()), denominator.Value(), DecimalValue(buffer[..count - 1]), count - 1,
                     numerator.Value())
  {
    hide BPow, Pow, DecimalValue, Bignum.Valid, Bignum.Value;
    ghost var start, den := numerator.Value(), denominator.Value();
    PowTen(0);
    DecimalEmpty(buffer[..0]);
    for i := 0 to count - 1
      invariant numerator.Valid() && AllDigits(buffer[..i])
      invariant Counting(start, den, DecimalValue(buffer[..i]), i, numerator.Value())
    {
      ghost var c := DecimalValue(buffer[..i]);
      var digit := NextDigit(numerator, denominator);
      CountingStep(start, den, c, i, digit as int, numerator.Value());
      AppendDigit(buffer, i, digit);
      SameCapacity(numerator, denominator);
      Times10(numerator);
    }
  }

  /** The last digit is rounded half up and may come out as ten. */
  method LastDigit(count: nat, numerator: Bignum, denominator: Bignum, buffer: array<char>, ghost start: nat)
    requires numerator.Valid() && denominator.Valid() && numerator.Apart(denominator)
    requires Roomy(denominator.Value(), denominator.bigits.Length)
    requires 0 < count <= buffer.Length && AllDigits(buffer[..count - 1])
    requires Counting(start, denominator.Value(), DecimalValue(buffer[..count - 1]), count - 1, numerator.Value())
    modifies numerator, numerator.bigits, buffer
    ensures CarryAt(buffer[..count], count - 1)
    ensures Pow(10, count - 1) <= CarryValue(buffer[..count])
    ensures HalfUpFraction(CarryValue(buffer[..count]), start * Pow(10, count - 1), denominator.Value())
  {
    hide BPow, Pow, DecimalValue, CarryValue, CarryAt, HalfUpFraction, Counting, Bignum.Valid, Bignum.Value;
    ghost var den := denominator.Value();
    ghost var c := DecimalValue(buffer[..count - 1]);
    CountingBound(start, den, c, count - 1, numerator.Value());
    var digit := NextDigit(numerator, denominator);
    CountingStep(start, den, c, count - 1, digit as int, numerator.Value());
    var compare := Bignum.PlusCompare(numerator, numerator, denominator);
    RoundedUp(start * Pow(10, count - 1), den, 10 * c + digit as int, numerator.Value(), compare >= 0);
    RoundedRange(start, den, c, count - 1, digit as int, numerator.Value());
    if compare >= 0 {
      digit := digit + 1;
    }
    ghost var before := buffer[..count - 1];
    buffer[count - 1] := ('0' as int + digit as int) as char;
    assert buffer[..count] == before + [buffer[count - 1]];
    CarryLast(before, buffer[count - 1]);
  }

  /** Writes count digits of the fraction rounded half up; a carry out of the first digit moves the decimal point. */
  method GenerateCountedDigits(count: nat, decimalPointIn: int, numerator: Bignum, denominator: Bignum,
                               buffer: array<char>)
    returns (decimalPoint: int, length: nat)
    requires numerator.Valid() && denominator.Valid() && numerator.Apart(denominator)
    requires denominator.Value() <= numerator.Value() < 10 * denominator.Value()
    requires Roomy(denominator.Value(), denominator.bigits.Length)
    requires 0 < count <= buffer.Length
    modifies numerator, numerator.bigits, buffer
    ensures length == count && AllDigits(buffer[..length])
    ensures Pow(10, count - 1) <= DecimalValue(buffer[..length])
    ensures decimalPointIn <= decimalPoint <= decimalPointIn + 1
    ensures HalfUpFraction(DecimalValue(buffer[..length]) * (if decimalPoint == decimalPointIn then 1 else 10),
                           old(numerator.Value()) * Pow(10, count - 1), denominator.Value())
  {
    hide BPow, Pow, DecimalValue, CarryValue, CarryAt, HalfUpFraction, Counting, Bignum.Valid, Bignum.Value;
    ghost var start := numerator.Value();
    LeadingDigits(count, numerator, denominator, buffer);
    LastDigit(count, numerator, denominator, buffer, start);
    var overflow := PropagateDigitCarry(buffer, count);
    decimalPoint := decimalPointIn;
    if overflow {
      decimalPoint := decimalPoint + 1;
      OverflowValue(count);
    }
    length := count;
  }

  lemma {:induction false} SameCapacity(a: Bignum, b: Bignum)
    requires a.Valid() && b.Valid()
    ensures a.bigits.Length == b.bigits.Length
  {
  }

  lemma {:induction false} CountingBound(start: nat, den: nat, c: nat, k: nat, num: nat)
    requires Counting(start, den, c, k, num)
    ensures num < 10 * den
  {
  }

  lemma {:induction false} RoundedRange(start: nat, den: nat, c: nat, k: nat, q: nat, r: nat)
    requires Counting(start, den, c, k, q * den + r) && r < den
    ensures Pow(10, k) <= 10 * c + q
  {
    hide Pow, Counting;
    CountingStep(start, den, c, k, q, r);
    NextCounting(start, den, 10 * c + q, k + 1, 10 * r);
  }

  lemma {:induction false} NextCounting(start: nat, den: nat, c: nat, k: nat, num: nat)
    requires Counting(start, den, c, k, num) && k > 0
    ensures Pow(10, k - 1) <= c
  {
  }

  lemma {:induction false} CarryLast(before: seq<char>, d: char)
    requires AllDigits(before) && '0' <= d <= TEN_CHAR
    ensures CarryAt(before + [d], |before|)
    ensures CarryValue(before + [d]) == 10 * DecimalValue(before) + (d as int - '0' as int)
  {
    assert (before + [d])[..|before|] == before;
    CarryIsDecimal(before);
  }
}
