/** Writing the decimal digits of machine words into a buffer. */
module DigitFilling {
  import opened Arith
  import opened Decimals

  const TEN7: uint64 := 10000000

  /** The part from `from` holds the digits of `value`, as many as it is long. */
  ghost predicate Holds(buffer: seq<char>, from: nat, to: nat, value: nat) {
    from <= to <= |buffer| && AllDigits(buffer[from..to]) && DecimalValue(buffer[from..to]) == value
  }

  /** The digits of the number fit. */
  ghost predicate RoomFor(number: int, size: int) {
    forall n: nat :: Pow(10, n) <= number ==> n < size
  }

  lemma {:induction false} FrontDigit(d: char, t: seq<char>)
    requires AllDigits(t) && '0' <= d <= '9'
    ensures AllDigits([d] + t) && DecimalValue([d] + t) == (d as int - '0' as int) * Pow(10, |t|) + DecimalValue(t)
  {
    hide Pow;
    assert AllDigits([d]);
    DecimalConcat([d], t);
    assert [d][..0] == [];
  }

  lemma {:induction false} NextQuotient(n: nat, p: nat)
    requires p > 0
    ensures n % (10 * p) == n / p % 10 * p + n % p && n / (10 * p) == n / p / 10
  {
    var q, r := n / p, n % p;
    var h, d := q / 10, q % 10;
    assert n == q * p + r && q == h * 10 + d;
    MulMono(d, 9, p);
    MulMono(0, d, p);
    Apart(h, d, p, r);
    DivModUnique(n, 10 * p, h, d * p + r);
  }

  lemma {:induction false} Apart(h: int, d: int, p: int, r: int)
    ensures (h * 10 + d) * p + r == h * (10 * p) + (d * p + r)
  {
  }

  /** The lowest `requestedLength` digits, with leading zeros. */
  method FillDigits32FixedLength(numberIn: uint32, requestedLength: nat, buffer: array<char>, lengthIn: nat)
    returns (length: nat)
    requires lengthIn + requestedLength <= buffer.Length
    modifies buffer
    ensures length == lengthIn + requestedLength && buffer[..lengthIn] == old(buffer[..lengthIn])
    ensures Holds(buffer[..], lengthIn, length, numberIn as int % Pow(10, requestedLength))
  {
    hide Pow, DecimalValue;
    var number, i: nat := numberIn, requestedLength;
    PowBasics(10);
    length := lengthIn + requestedLength;
    DecimalEmpty(buffer[..][length..length]);
    while i > 0
      invariant i <= requestedLength && number as int == numberIn as int / Pow(10, requestedLength - i)
      invariant buffer[..lengthIn] == old(buffer[..lengthIn])
      invariant Holds(buffer[..], lengthIn + i, length, numberIn as int % Pow(10, requestedLength - i))
    {
      i := i - 1;
      NextQuotient(numberIn as int, Pow(10, requestedLength - i - 1));
      PowTenStep(requestedLength - i - 1);
      ghost var tail := buffer[..][lengthIn + i + 1..length];
      buffer[lengthIn + i] := ('0' as int + (number % 10) as int) as char;
      assert buffer[..][lengthIn + i..length] == [buffer[lengthIn + i]] + tail;
      FrontDigit(buffer[lengthIn + i], tail);
      number := number / 10;
    }
  }

  /** The value of digits written lowest first. */
  function LowFirst(s: seq<char>): int {
    if |s| == 0 then 0 else LowFirst(s[..|s| - 1]) + (s[|s| - 1] as int - '0' as int) * Pow(10, |s| - 1)
  }

  lemma {:induction false} LowFirstAppend(s: seq<char>, d: char)
    ensures LowFirst(s + [d]) == LowFirst(s) + (d as int - '0' as int) * Pow(10, |s|)
  {
    hide Pow;
    assert (s + [d])[..|s|] == s;
  }

  lemma {:induction false} ReversedValue(s: seq<char>, t: seq<char>)
    requires |t| == |s| && AllDigits(s) && forall i :: 0 <= i < |s| ==> t[i] == s[|s| - 1 - i]
    ensures AllDigits(t) && DecimalValue(t) == LowFirst(s)
    decreases |s|
  {
    hide Pow, DecimalValue;
    if |s| == 0 {
      DecimalEmpty(t);
    } else {
      var n := |s| - 1;
      ReversedValue(s[..n], t[1..]);
      assert t == [s[n]] + t[1..];
      FrontDigit(s[n], t[1..]);
    }
  }

  /** Exchanges the elements from `from` to `to` back to front. */
  method ReverseRange(buffer: array<char>, from: nat, to: nat)
    requires from <= to <= buffer.Length
    modifies buffer
    ensures forall k :: from <= k < to ==> buffer[k] == old(buffer[from + to - 1 - k])
    ensures forall k :: 0 <= k < buffer.Length && !(from <= k < to) ==> buffer[k] == old(buffer[k])
  {
    var i, j := from, to - 1;
    while i < j
      invariant from <= i && i + j == from + to - 1 && i <= j + 1
      invariant forall k :: from <= k < i || j < k < to ==> buffer[k] == old(buffer[from + to - 1 - k])
      invariant forall k :: 0 <= k < buffer.Length && (i <= k <= j || !(from <= k < to)) ==> buffer[k] == old(buffer[k])
      decreases j - i
    {
      var tmp := buffer[i];
      buffer[i] := buffer[j];
      buffer[j] := tmp;
      i := i + 1;
      j := j - 1;
    }
  }

  lemma {:induction false} TakeDigit(number: int, p: int, low: int, total: int)
    requires low + number * p == total && number >= 0
    ensures low + number % 10 * p + number / 10 * (10 * p) == total
  {
    var q, r := number / 10, number % 10;
    assert number == q * 10 + r;
    Apart(q, r, p, 0);
  }

  /** The digits so far, lowest first, and what is left of the number. */
  ghost predicate Reversing(part: seq<char>, left: int, number: int) {
    && AllDigits(part) && 0 <= LowFirst(part) && left >= 0 && LowFirst(part) + left * Pow(10, |part|) == number
    && (left == 0 && number > 0 ==> |part| > 0 && Pow(10, |part| - 1) <= number)
    && (number == 0 ==> |part| == 0)
  }

  lemma {:induction false} ReversingStep(part: seq<char>, left: int, number: int, d: char)
    requires Reversing(part, left, number) && left > 0 && d == ('0' as int + left % 10) as char
    ensures Reversing(part + [d], left / 10, number) && Pow(10, |part|) <= number
  {
    hide Pow, LowFirst;
    HasDigit(left, Pow(10, |part|), LowFirst(part), number);
    TakeDigit(left, Pow(10, |part|), LowFirst(part), number);
    LowFirstAppend(part, d);
    PowTenStep(|part|);
    MulMono(0, left % 10, Pow(10, |part|));
  }

  method FillLowFirst(numberIn: uint32, buffer: array<char>, lengthIn: nat) returns (numberLength: nat)
    requires lengthIn <= buffer.Length && RoomFor(numberIn as int, buffer.Length - lengthIn)
    modifies buffer
    ensures lengthIn + numberLength <= buffer.Length && buffer[..lengthIn] == old(buffer[..lengthIn])
    ensures Reversing(buffer[..][lengthIn..lengthIn + numberLength], 0, numberIn as int)
  {
    hide Pow, LowFirst, Reversing;
    var number := numberIn;
    numberLength := 0;
    StartReversing(buffer[..][lengthIn..lengthIn], numberIn as int);
    while number != 0
      invariant lengthIn + numberLength <= buffer.Length && buffer[..lengthIn] == old(buffer[..lengthIn])
      invariant Reversing(buffer[..][lengthIn..lengthIn + numberLength], number as int, numberIn as int)
    {
      ghost var part := buffer[..][lengthIn..lengthIn + numberLength];
      var digit := number % 10;
      ReversingStep(part, number as int, numberIn as int, ('0' as int + digit as int) as char);
      assert numberLength < buffer.Length - lengthIn;
      number := number / 10;
      buffer[lengthIn + numberLength] := ('0' as int + digit as int) as char;
      assert buffer[..][lengthIn..lengthIn + numberLength + 1] == part + [buffer[lengthIn + numberLength]];
      numberLength := numberLength + 1;
    }
  }

  lemma {:induction false} StartReversing(s: seq<char>, number: nat)
    requires |s| == 0
    ensures Reversing(s, number, number)
  {
  }

  lemma {:induction false} ReversingEnd(part: seq<char>, number: int)
    requires Reversing(part, 0, number)
    ensures AllDigits(part) && LowFirst(part) == number && (number > 0 <==> |part| > 0) &&
            (|part| > 0 ==> Pow(10, |part| - 1) <= number)
  {
  }

  /** All digits, without leading zeros; none for zero. */
  method FillDigits32(numberIn: uint32, buffer: array<char>, lengthIn: nat) returns (length: nat)
    requires lengthIn <= buffer.Length && RoomFor(numberIn as int, buffer.Length - lengthIn)
    modifies buffer
    ensures lengthIn <= length && buffer[..lengthIn] == old(buffer[..lengthIn])
    ensures Holds(buffer[..], lengthIn, length, numberIn as int)
    ensures (numberIn > 0 <==> length > lengthIn) &&
            (numberIn > 0 ==> Pow(10, length - lengthIn - 1) <= numberIn as int)
  {
    hide Pow, DecimalValue, LowFirst, Reversing;
    var numberLength := FillLowFirst(numberIn, buffer, lengthIn);
    ghost var part := buffer[..][lengthIn..lengthIn + numberLength];
    ReversingEnd(part, numberIn as int);
    length := lengthIn + numberLength;
    ReverseRange(buffer, lengthIn, length);
    ReversedValue(part, buffer[..][lengthIn..length]);
    assert buffer[..lengthIn] == old(buffer[..lengthIn]);
  }

  lemma {:induction false} HasDigit(number: int, p: int, low: int, total: int)
    requires number > 0 && p > 0 && low >= 0 && low + number * p == total
    ensures p <= total
  {
    MulMono(1, number, p);
  }

  lemma {:induction false} HoldsMore(before: seq<char>, after: seq<char>, from: nat, mid: nat, to: nat, high: nat,
                                     low: nat)
    requires Holds(before, from, mid, high) && Holds(after, mid, to, low) && |after| == |before| &&
             after[..mid] == before[..mid]
    ensures Holds(after, from, to, high * Pow(10, to - mid) + low)
  {
    hide Pow, DecimalValue;
    assert after[from..mid] == before[from..mid] by { assert after[from..mid] == after[..mid][from..] &&
                                                     before[from..mid] == before[..mid][from..]; }
    assert after[from..to] == after[from..mid] + after[mid..to];
    DecimalConcat(after[from..mid], after[mid..to]);
  }

  lemma {:induction false} Tens()
    ensures Pow(10, 3) == 1000 && Pow(10, 7) == 10000000 && Pow(10, 14) == 100000000000000 &&
            Pow(10, 17) == 100000000000000000
    ensures Pow(10, 10) == 10000000000
  {
    hide Pow;
    Three();
    PowAdd(10, 3, 3);
    PowAdd(10, 6, 1);
    PowAdd(10, 7, 7);
    PowAdd(10, 14, 3);
    PowAdd(10, 7, 3);
  }

  lemma {:induction false} Three()
    ensures Pow(10, 3) == 1000 && Pow(10, 1) == 10
  {
    assert Pow(10, 2) == 100;
  }

  /** Seventeen digits, with leading zeros. */
  method FillDigits64FixedLength(numberIn: uint64, buffer: array<char>, lengthIn: nat) returns (length: nat)
    requires numberIn < 100000000000000000 && lengthIn + 17 <= buffer.Length
    modifies buffer
    ensures length == lengthIn + 17 && buffer[..lengthIn] == old(buffer[..lengthIn])
    ensures Holds(buffer[..], lengthIn, length, numberIn as int)
  {
    hide Pow, DecimalValue, Holds;
    Tens();
    var number := numberIn;
    var part2 := (number % TEN7) as uint32;
    number := number / TEN7;
    var part1 := (number % TEN7) as uint32;
    var part0 := (number / TEN7) as uint32;
    length := FillDigits32FixedLength(part0, 3, buffer, lengthIn);
    ghost var first := buffer[..];
    length := FillDigits32FixedLength(part1, 7, buffer, length);
    ghost var second := buffer[..];
    HoldsMore(first, second, lengthIn, lengthIn + 3, lengthIn + 10, part0 as int, part1 as int);
    length := FillDigits32FixedLength(part2, 7, buffer, length);
    HoldsMore(second, buffer[..], lengthIn, lengthIn + 10, lengthIn + 17, part0 as int * 10000000 + part1 as int,
              part2 as int);
    PrefixStays(old(buffer[..]), first, second, buffer[..], lengthIn);
  }

  lemma {:induction false} PrefixStays(a: seq<char>, b: seq<char>, c: seq<char>, d: seq<char>, n: nat)
    requires n + 10 <= |a| && |b| == |a| && |c| == |a| && |d| == |a| && b[..n] == a[..n] && c[..n + 3] == b[..n + 3] &&
             d[..n + 10] == c[..n + 10]
    ensures d[..n] == a[..n]
  {
    assert d[..n] == d[..n + 10][..n] && c[..n] == c[..n + 10][..n] && c[..n] == c[..n + 3][..n] &&
        b[..n] == b[..n + 3][..n];
  }

  /** The digits of the number, without leading zeros. */
  ghost predicate Written(buffer: seq<char>, from: nat, to: nat, number: int) {
    number >= 0 && Holds(buffer, from, to, number) && (number > 0 <==> to > from) &&
        (number > 0 ==> Pow(10, to - from - 1) <= number)
  }

  lemma {:induction false} RoomForPart(number: int, part: int, low: int, k: nat, size: int)
    requires RoomFor(number, size) && 0 <= low && part * Pow(10, k) + low == number && part > 0
    ensures RoomFor(part, size - k) && RoomFor(part, size)
  {
    hide Pow;
    forall n: nat | Pow(10, n) <= part
      ensures n < size - k
    {
      MulMono(Pow(10, n), part, Pow(10, k));
      PowAdd(10, n, k);
      assert n + k < size;
    }
  }

  lemma {:induction false} WrittenMore(before: seq<char>, after: seq<char>, from: nat, mid: nat, to: nat, high: int,
                                       low: nat)
    requires Written(before, from, mid, high) && high > 0 && Holds(after, mid, to, low) && |after| == |before| &&
             after[..mid] == before[..mid]
    ensures Written(after, from, to, high * Pow(10, to - mid) + low)
  {
    hide Pow, DecimalValue;
    HoldsMore(before, after, from, mid, to, high, low);
    MulMono(Pow(10, mid - from - 1), high, Pow(10, to - mid));
    PowAdd(10, mid - from - 1, to - mid);
    MulMono(1, high, Pow(10, to - mid));
  }

  method FillDigits64(numberIn: uint64, buffer: array<char>, lengthIn: nat) returns (length: nat)
    requires lengthIn <= buffer.Length && RoomFor(numberIn as int, buffer.Length - lengthIn)
    modifies buffer
    ensures lengthIn <= length && buffer[..lengthIn] == old(buffer[..lengthIn])
    ensures Written(buffer[..], lengthIn, length, numberIn as int)
  {
    hide Pow, DecimalValue, Holds, Written, RoomFor;
    Tens();
    var number := numberIn;
    var part2 := (number % TEN7) as uint32;
    number := number / TEN7;
    var part1 := (number % TEN7) as uint32;
    var part0 := (number / TEN7) as uint32;
    if part0 != 0 {
      RoomForPart(numberIn as int, part0 as int, part1 as int * 10000000 + part2 as int, 14, buffer.Length - lengthIn);
      length := FillDigits32(part0, buffer, lengthIn);
      AsWritten(buffer[..], lengthIn, length, part0 as int);
      WrittenFits(buffer[..], lengthIn, length, part0 as int, 14, buffer.Length);
      ghost var first, mid := buffer[..], length;
      length := FillDigits32FixedLength(part1, 7, buffer, length);
      ghost var second := buffer[..];
      WrittenMore(first, second, lengthIn, mid, length, part0 as int, part1 as int);
      length := FillDigits32FixedLength(part2, 7, buffer, length);
      WrittenMore(second, buffer[..], lengthIn, mid + 7, length, part0 as int * 10000000 + part1 as int, part2 as int);
      PrefixOf(first, second, lengthIn, mid);
      PrefixOf(second, buffer[..], lengthIn, mid + 7);
    } else if part1 != 0 {
      RoomForPart(numberIn as int, part1 as int, part2 as int, 7, buffer.Length - lengthIn);
      length := FillDigits32(part1, buffer, lengthIn);
      AsWritten(buffer[..], lengthIn, length, part1 as int);
      WrittenFits(buffer[..], lengthIn, length, part1 as int, 7, buffer.Length);
      ghost var first, mid := buffer[..], length;
      length := FillDigits32FixedLength(part2, 7, buffer, length);
      WrittenMore(first, buffer[..], lengthIn, mid, length, part1 as int, part2 as int);
      PrefixOf(first, buffer[..], lengthIn, mid);
    } else {
      length := FillDigits32(part2, buffer, lengthIn);
      AsWritten(buffer[..], lengthIn, length, part2 as int);
    }
  }

  lemma {:induction false} AsWritten(buffer: seq<char>, from: nat, to: nat, number: nat)
    requires Holds(buffer, from, to, number) && (number > 0 <==> to > from) &&
             (number > 0 ==> Pow(10, to - from - 1) <= number)
    ensures Written(buffer, from, to, number)
  {
  }

  lemma {:induction false} WrittenFits(buffer: seq<char>, from: nat, to: nat, number: int, k: nat, size: int)
    requires Written(buffer, from, to, number) && number > 0 && RoomFor(number, size - from - k)
    ensures to + k <= size
  {
    hide Pow, DecimalValue;
    assert to - from - 1 < size - from - k;
  }

  lemma {:induction false} PrefixOf(a: seq<char>, b: seq<char>, n: nat, m: nat)
    requires n <= m <= |a| == |b| && b[..m] == a[..m]
    ensures b[..n] == a[..n]
  {
    assert b[..n] == b[..m][..n] && a[..n] == a[..m][..n];
  }
}
