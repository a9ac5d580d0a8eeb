/** Decimal digit strings and the numbers they denote. */
module Decimals {
  import opened Arith

  ghost predicate AllDigits(s: seq<char>) {
    forall i :: 0 <= i < |s| ==> '0' <= s[i] <= '9'
  }

  /** The number a decimal digit string denotes. */
  function DecimalValue(s: seq<char>): nat
    requires AllDigits(s)
  {
    if |s| == 0 then 0 else DecimalValue(s[..|s| - 1]) * 10 + (s[|s| - 1] as int - '0' as int)
  }

  lemma {:induction false} DecimalEmpty(s: seq<char>)
    requires |s| == 0
    ensures DecimalValue(s) == 0
  {
  }

  lemma {:induction false} DecimalSnoc(s: seq<char>, i: nat)
    requires AllDigits(s) && i < |s|
    ensures DecimalValue(s[..i + 1]) == DecimalValue(s[..i]) * 10 + (s[i] as int - '0' as int)
  {
    assert s[..i + 1][..i] == s[..i];
  }

  lemma {:induction false} DecimalBound(s: seq<char>)
    requires AllDigits(s)
    ensures DecimalValue(s) < Pow(10, |s|)
    decreases |s|
  {
    if |s| > 0 { DecimalBound(s[..|s| - 1]); }
  }

  lemma {:induction false} DecimalConcat(s: seq<char>, t: seq<char>)
    requires AllDigits(s) && AllDigits(t)
    ensures AllDigits(s + t) && DecimalValue(s + t) == DecimalValue(s) * Pow(10, |t|) + DecimalValue(t)
    decreases |t|
  {
    assert AllDigits(s + t);
    if |t| == 0 {
      assert s + t == s;
    } else {
      var n := |t| - 1;
      DecimalConcat(s, t[..n]);
      assert (s + t)[..|s| + n] == s + t[..n];
      DecimalShift(DecimalValue(s), Pow(10, n), DecimalValue(t[..n]));
    }
  }

  lemma {:induction false} DecimalShift(v: int, p: int, w: int)
    ensures (v * p + w) * 10 == v * (10 * p) + w * 10
  {
    assert (v * p) * 10 == v * (10 * p);
  }

  /** Digits of one length are determined by their number. */
  lemma {:induction false} DigitsDetermined(s: seq<char>, t: seq<char>)
    requires AllDigits(s) && AllDigits(t) && |s| == |t| && DecimalValue(s) == DecimalValue(t)
    ensures s == t
    decreases |s|
  {
    if |s| > 0 {
      var n := |s| - 1;
      DigitsDetermined(s[..n], t[..n]);
      assert s == s[..n] + [s[n]] && t == t[..n] + [t[n]];
    }
  }

  /** Reads at most 19 digits; the 64-bit accumulator does not wrap. */
  method ReadUInt64(buffer: seq<char>, from: nat, digitsToRead: nat) returns (result: uint64)
    requires AllDigits(buffer) && from + digitsToRead <= |buffer| && digitsToRead <= 19
    ensures result as int == DecimalValue(buffer[from..from + digitsToRead])
  {
    hide DecimalValue, Pow;
    result := 0;
    ghost var part := buffer[from..from + digitsToRead];
    DecimalEmpty(part[..0]);
    for i := from to from + digitsToRead
      invariant result as int == DecimalValue(part[..i - from])
    {
      DecimalSnoc(part, i - from);
      DecimalBound(part[..i - from + 1]);
      PowMono(10, i - from + 1, 19);
      Ten19();
      var digit := buffer[i] as int - '0' as int;
      result := result * 10 + digit as uint64;
    }
    assert part[..digitsToRead] == part;
  }

  lemma {:induction false} Ten19()
    ensures Pow(10, 19) < 0x1_0000_0000_0000_0000
  {
    assert Pow(10, 3) == 1000;
    PowAdd(10, 3, 3);
    PowAdd(10, 6, 6);
    PowAdd(10, 12, 6);
    PowAdd(10, 18, 1);
  }
}
