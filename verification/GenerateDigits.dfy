/** Exact digit generation on bignums: shortest, counted and fixed. */
module GenerateDigits {
  import opened Arith
  import opened Limbs
  import opened Decimals
  import opened LimbArith
  import opened Bignums
  import opened Shortest

  /** Room for one more factor of ten. */
  ghost predicate Roomy(value: nat, length: nat)
    requires length > 0
  {
    16 * value < BPow(length)
  }

  /** Multiplies by ten a number that leaves room for it. */
  method Times10(x: Bignum)
    requires x.Valid() && Roomy(x.Value(), x.bigits.Length)
    modifies x, x.bigits
    ensures x.Valid() && x.Value() == 10 * old(x.Value())
  {
    hide BPow;
    x.MantissaBelowValue();
    x.MultiplyByUInt32(10);
  }

  /** One digit: numerator / denominator, leaving the remainder in the numerator. */
  method NextDigit(numerator: Bignum, denominator: Bignum) returns (digit: uint16)
    requires numerator.Valid() && denominator.Valid() && numerator.Apart(denominator)
    requires numerator.Value() <= 10 * denominator.Value() && denominator.Value() > 0
    requires Roomy(denominator.Value(), denominator.bigits.Length)
    modifies numerator, numerator.bigits
    ensures numerator.Valid() && numerator.Value() < denominator.Value()
    ensures old(numerator.Value()) == digit as int * denominator.Value() + numerator.Value()
  {
    hide BPow;
    denominator.Range();
    LeadingBigit(numerator, denominator);
    numerator.LengthBound(denominator.bigits.Length);
    digit := numerator.DivideModuloIntBignum(denominator);
  }

  /** A dividend below sixteen divisors implies the leading-limb condition of the division. */
  lemma {:induction false} LeadingBigit(numerator: Bignum, denominator: Bignum)
    requires numerator.Valid() && denominator.Valid() && denominator.used > 0
    requires numerator.Value() < 16 * denominator.Value()
    ensures numerator.BigitLength() > denominator.BigitLength()
        ==> denominator.bigits[denominator.used - 1] as int >= BASE / 16
  {
    hide BPow, Val;
    if numerator.BigitLength() > denominator.BigitLength() {
      numerator.Range();
      denominator.Range();
      var k := denominator.BigitLength();
      BPowMono(k, numerator.BigitLength() - 1);
      BPowStep(k - 1);
      var top, u := denominator.bigits[denominator.used - 1] as int, BPow(k - 1);
      if top < BASE / 16 { MulMono(top + 1, BASE / 16, u); }
    }
  }

  /** Are the numbers with the remainder dropped, or rounded up, still between the boundaries? */
  method InDeltaRoom(numerator: Bignum, denominator: Bignum, deltaMinus: Bignum, deltaPlus: Bignum, isEven: bool)
    returns (minus: bool, plus: bool)
    requires numerator.Valid() && denominator.Valid() && deltaMinus.Valid() && deltaPlus.Valid()
    ensures minus == RoomMinus(isEven, numerator.Value(), deltaMinus.Value())
    ensures plus == RoomPlus(isEven, numerator.Value(), deltaPlus.Value(), denominator.Value())
  {
    hide BPow, Val;
    var low := Bignum.Compare(numerator, deltaMinus);
    minus := if isEven then low <= 0 else low < 0;
    var high := Bignum.PlusCompare(numerator, deltaPlus, denominator);
    plus := if isEven then high >= 0 else high > 0;
  }

  ghost predicate AllApart(a: Bignum, b: Bignum, c: Bignum, d: Bignum) {
    a.Apart(b) && a.Apart(c) && a.Apart(d) && b.Apart(c) && b.Apart(d) && c.Apart(d)
  }

  /** The loop of GenerateShortestDigits has written k digits of value c. */
  ghost predicate Running(s: Scaled, c: nat, k: nat, numerator: Bignum, denominator: Bignum,
                          deltaMinus: Bignum, deltaPlus: Bignum)
    reads numerator, numerator.bigits, denominator, denominator.bigits
    reads deltaMinus, deltaMinus.bigits, deltaPlus, deltaPlus.bigits
  {
    && numerator.Valid() && denominator.Valid() && deltaMinus.Valid() && deltaPlus.Valid()
    && denominator.Value() == s.den && Roomy(s.den, denominator.bigits.Length)
    && Generating(s, c, k, numerator.Value(), deltaMinus.Value(), deltaPlus.Value())
  }

  /** One round of GenerateShortestDigits: a digit, then either the next round or the final rounding. */
  method ShortestRound(numerator: Bignum, denominator: Bignum, deltaMinus: Bignum, deltaPlus: Bignum,
                       isEven: bool, buffer: array<char>, lengthIn: nat, ghost s: Scaled, ghost c: nat)
    returns (length: nat, done: bool)
    requires Running(s, c, lengthIn, numerator, denominator, deltaMinus, deltaPlus) && Ready(s) && s.even == isEven
    requires numerator.Apart(denominator) && numerator.Apart(deltaMinus) && numerator.Apart(deltaPlus)
    requires denominator.Apart(deltaMinus) && denominator.Apart(deltaPlus)
    requires deltaMinus == deltaPlus || deltaMinus.Apart(deltaPlus)
    requires lengthIn < buffer.Length && AllDigits(buffer[..lengthIn]) && DecimalValue(buffer[..lengthIn]) == c
    modifies numerator, numerator.bigits, deltaMinus, deltaMinus.bigits, deltaPlus, deltaPlus.bigits, buffer
    ensures length == lengthIn + 1 && AllDigits(buffer[..length])
    ensures done ==> IsShortest(s, DecimalValue(buffer[..length]), length)
    ensures !done ==> Running(s, DecimalValue(buffer[..length]), length, numerator, denominator, deltaMinus, deltaPlus)
    ensures !done ==> Pow(10, lengthIn) * (s.minus + s.plus) <= s.den
  {
    hide BPow, Val, Pow, Generating, IsShortest, DecimalValue, Bignum.Valid, Bignum.Value;
    ghost var minus, plus := deltaMinus.Value(), deltaPlus.Value();
    AtMostTenfold(s, c, lengthIn, numerator.Value(), minus, plus);
    var digit := NextDigit(numerator, denominator);
    ghost var q, r := digit as int, numerator.Value();
    DigitRange(s, c, lengthIn, q, r, minus, plus);
    AppendDigit(buffer, lengthIn, digit);
    length := lengthIn + 1;
    var inMinus, inPlus := InDeltaRoom(numerator, denominator, deltaMinus, deltaPlus, isEven);
    done := inMinus || inPlus;
    if done {
      StopRange(s, c, lengthIn, q, r, minus, plus);
      Stop(s, c, lengthIn, q, r, minus, plus);
      RoundLastDigit(numerator, denominator, inMinus, inPlus, buffer, length, 10 * c + q);
    } else {
      Continue(s, c, lengthIn, q, r, minus, plus);
      LimitReached(s, c, lengthIn, q, r, minus, plus);
      PrepareNextDigit(numerator, denominator, deltaMinus, deltaPlus);
    }
  }

  /** Writes the shortest decimal between the boundaries, and the closest one of that length. */
  method GenerateShortestDigits(numerator: Bignum, denominator: Bignum, deltaMinus: Bignum, deltaPlusIn: Bignum,
                                isEven: bool, buffer: array<char>, ghost s: Scaled, ghost limit: nat)
    returns (length: nat)
    requires numerator.Valid() && denominator.Valid() && deltaMinus.Valid() && deltaPlusIn.Valid()
    requires AllApart(numerator, denominator, deltaMinus, deltaPlusIn)
    requires s == Scaled(numerator.Value(), denominator.Value(), deltaMinus.Value(), deltaPlusIn.Value(), isEven)
    requires Ready(s) && Roomy(s.den, denominator.bigits.Length)
    requires 0 < limit <= buffer.Length && Pow(10, limit - 1) * (s.minus + s.plus) > s.den
    modifies numerator, numerator.bigits, deltaMinus, deltaMinus.bigits, deltaPlusIn, deltaPlusIn.bigits, buffer
    ensures 0 < length <= limit && AllDigits(buffer[..length])
    ensures IsShortest(s, DecimalValue(buffer[..length]), length)
  {
    hide BPow, Val, Pow, Generating, IsShortest, Bignum.Valid, Bignum.Value;
    var deltaPlus := deltaPlusIn;
    var equal := Bignum.Compare(deltaMinus, deltaPlus);
    if equal == 0 {
      deltaPlus := deltaMinus;
    }
    length := 0;
    StartGenerating(s);
    var done := false;
    while !done
      invariant 0 <= length <= limit && AllDigits(buffer[..length]) && (done ==> length > 0)
      invariant deltaPlus == if equal == 0 then deltaMinus else deltaPlusIn
      invariant done ==> IsShortest(s, DecimalValue(buffer[..length]), length)
      invariant !done ==> length < limit
      invariant !done ==> Running(s, DecimalValue(buffer[..length]), length, numerator, denominator, deltaMinus,
                                  deltaPlus)
      decreases limit - length, !done
    {
      length, done := ShortestRound(numerator, denominator, deltaMinus, deltaPlus, isEven, buffer, length,
                                    s, DecimalValue(buffer[..length]));
    }
  }

  lemma {:induction false} AtMostTenfold(s: Scaled, c: nat, k: nat, num: nat, minus: nat, plus: nat)
    requires Generating(s, c, k, num, minus, plus)
    ensures num <= 10 * s.den
  {
  }

  lemma {:induction false} LimitReached(s: Scaled, c: nat, k: nat, q: nat, r: nat, minus: nat, plus: nat)
    requires Ready(s) && Split(s, c, k, q, r, minus, plus)
    requires !RoomMinus(s.even, r, minus) && !RoomPlus(s.even, r, plus, s.den)
    ensures Pow(10, k) * (s.minus + s.plus) <= s.den
  {
    assert Pow(10, k) * (s.minus + s.plus) == s.minus * Pow(10, k) + s.plus * Pow(10, k);
  }

  method AppendDigit(buffer: array<char>, length: nat, digit: uint16)
    requires length < buffer.Length && AllDigits(buffer[..length]) && digit <= 9
    modifies buffer
    ensures AllDigits(buffer[..length + 1])
    ensures DecimalValue(buffer[..length + 1]) == 10 * old(DecimalValue(buffer[..length])) + digit as int
    ensures buffer[length] as int == '0' as int + digit as int
  {
    hide DecimalValue;
    ghost var before := buffer[..length];
    buffer[length] := ('0' as int + digit as int) as char;
    assert buffer[..length + 1] == before + [buffer[length]];
    DecimalLast(before, buffer[length]);
  }

  lemma {:induction false} DecimalLast(s: seq<char>, d: char)
    requires AllDigits(s) && '0' <= d <= '9'
    ensures AllDigits(s + [d]) && DecimalValue(s + [d]) == 10 * DecimalValue(s) + (d as int - '0' as int)
  {
    assert (s + [d])[..|s|] == s;
  }

  /** Multiplies the numerator and the deltas by ten; one call is enough for deltas that share their bignum. */
  method PrepareNextDigit(numerator: Bignum, denominator: Bignum, deltaMinus: Bignum, deltaPlus: Bignum)
    requires numerator.Valid() && denominator.Valid() && deltaMinus.Valid() && deltaPlus.Valid()
    requires numerator.Apart(denominator) && numerator.Apart(deltaMinus) && numerator.Apart(deltaPlus)
    requires denominator.Apart(deltaMinus) && denominator.Apart(deltaPlus)
    requires deltaMinus == deltaPlus || deltaMinus.Apart(deltaPlus)
    requires Roomy(denominator.Value(), denominator.bigits.Length)
    requires numerator.Value() <= denominator.Value() && deltaMinus.Value() <= denominator.Value() &&
             deltaPlus.Value() <= denominator.Value()
    modifies numerator, numerator.bigits, deltaMinus, deltaMinus.bigits, deltaPlus, deltaPlus.bigits
    ensures numerator.Valid() && deltaMinus.Valid() && deltaPlus.Valid()
    ensures numerator.Value() == 10 * old(numerator.Value())
    ensures deltaMinus.Value() == 10 * old(deltaMinus.Value())
    ensures deltaPlus.Value() == 10 * old(deltaPlus.Value())
  {
    hide BPow, Val;
    Times10(numerator);
    Times10(deltaMinus);
    if deltaMinus != deltaPlus {
      Times10(deltaPlus);
    }
  }

  /** The last digit is incremented when only the upper neighbour fits, or when it is closer; ties go to the even
      digit. */
  method RoundLastDigit(numerator: Bignum, denominator: Bignum, inMinus: bool, inPlus: bool,
                        buffer: array<char>, length: nat, ghost c1: nat)
    requires numerator.Valid() && denominator.Valid() && (inMinus || inPlus)
    requires 0 < length <= buffer.Length && AllDigits(buffer[..length]) && DecimalValue(buffer[..length]) == c1
    requires Rounded(c1, numerator.Value(), denominator.Value(), inMinus, inPlus) == c1 + 1 ==> buffer[length - 1] < '9'
    modifies buffer
    ensures AllDigits(buffer[..length])
    ensures DecimalValue(buffer[..length])
         == Rounded(c1, old(numerator.Value()), old(denominator.Value()), inMinus, inPlus)
  {
    hide BPow, Val;
    LastDigitParity(buffer[..length]);
    if inMinus && inPlus {
      var compare := Bignum.PlusCompare(numerator, numerator, denominator);
      if compare < 0 {
      } else if compare > 0 {
        IncrementDigit(buffer, length);
      } else if (buffer[length - 1] as int - '0' as int) % 2 != 0 {
        IncrementDigit(buffer, length);
      }
    } else if !inMinus {
      IncrementDigit(buffer, length);
    }
  }

  lemma {:induction false} LastDigitParity(s: seq<char>)
    requires AllDigits(s) && |s| > 0
    ensures DecimalValue(s) % 2 == (s[|s| - 1] as int - '0' as int) % 2
  {
  }

  method IncrementDigit(buffer: array<char>, length: nat)
    requires 0 < length <= buffer.Length && AllDigits(buffer[..length]) && buffer[length - 1] < '9'
    modifies buffer
    ensures AllDigits(buffer[..length]) && DecimalValue(buffer[..length]) == old(DecimalValue(buffer[..length])) + 1
  {
    ghost var before := buffer[..length];
    buffer[length - 1] := (buffer[length - 1] as int + 1) as char;
    assert buffer[..length] == before[..length - 1] + [buffer[length - 1]];
    DecimalLast(before[..length - 1], buffer[length - 1]);
    assert before == before[..length - 1] + [before[length - 1]];
    DecimalLast(before[..length - 1], before[length - 1]);
  }
}
