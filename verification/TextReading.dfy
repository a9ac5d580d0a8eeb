/** Reading a decimal text, without any of the optional extensions. */
module TextReading {
  import opened Wrappers
  import opened Arith
  import opened RealPowers
  import opened Decimals
  import opened Ieee
  import opened DecimalRounding
  import opened StrtodTrim
  import opened FastStrtod
  import opened StringToDouble
  import opened NumberText

  const MAX_SIGNIFICANT_DIGITS := 772
  const BUFFER_SIZE := 782
  const MAX_EXPONENT := 1073741823

  datatype Reading = EmptyText | Junk | Number(negative: bool, magnitude: Double)

  // ---- The significant digits ----

  function Stripped(s: seq<char>): (r: seq<char>)
    ensures |r| > 0 ==> r[0] != '0'
    ensures |r| <= |s|
  {
    if |s| > 0 && s[0] == '0' then Stripped(s[1..]) else s
  }

  lemma {:induction false} StrippedAppend(s: seq<char>, c: char)
    ensures Stripped(s + [c]) == if Stripped(s) == [] && c == '0' then [] else Stripped(s) + [c]
    decreases |s|
  {
    if |s| > 0 && s[0] == '0' {
      assert (s + [c])[1..] == s[1..] + [c];
      StrippedAppend(s[1..], c);
    } else if |s| == 0 {
      assert s + [c] == [c];
    }
  }

  lemma {:induction false} StrippedValue(s: seq<char>)
    requires AllDigits(s)
    ensures AllDigits(Stripped(s)) && DecimalValue(Stripped(s)) == DecimalValue(s)
    decreases |s|
  {
    hide DecimalValue;
    if |s| > 0 && s[0] == '0' {
      StrippedValue(s[1..]);
      LeadingZeros(s, 1);
    }
  }

  predicate HasNonzero(s: seq<char>) {
    exists i :: 0 <= i < |s| && s[i] != '0'
  }

  /** What is known after scanning the digits d, the last `fractional` of them behind the point. */
  ghost predicate Scanned(d: seq<char>, fractional: nat, buffer: seq<char>, pos: nat, exponent: int,
                          insignificant: nat, dropped: bool) {
    var s := Stripped(d);
    && AllDigits(d) && pos <= |buffer| && pos <= |s| && pos <= MAX_SIGNIFICANT_DIGITS &&
        (pos < |s| ==> pos == MAX_SIGNIFICANT_DIGITS)
    && buffer[..pos] == s[..pos] && (dropped <==> HasNonzero(s[pos..]))
    && exponent + insignificant == |s| - pos - fractional
    && -(fractional as int) <= exponent <= 0 && insignificant + exponent <= |d|
  }

  /** One more digit that is kept. */
  lemma {:induction false} Keep(d: seq<char>, fractional: nat, before: seq<char>, after: seq<char>, pos: nat,
                                exponent: int, insignificant: nat, dropped: bool,
                                c: char, behindPoint: bool)
    requires Scanned(d, fractional, before, pos, exponent, insignificant, dropped) && pos < MAX_SIGNIFICANT_DIGITS &&
             pos < |before| && IsDigit(c)
    requires pos > 0 || c != '0'
    requires after == before[pos := c]
    ensures Scanned(d + [c], if behindPoint then fractional + 1 else fractional, after, pos + 1,
                    if behindPoint then exponent - 1 else exponent, insignificant, dropped)
  {
    hide Stripped;
    StrippedAppend(d, c);
    var s := Stripped(d);
    assert s[..pos] == s && s[pos..] == [];
    assert (s + [c])[..pos + 1] == s + [c] && (s + [c])[pos + 1..] == [];
    assert after[..pos + 1] == before[..pos] + [c];
  }

  /** One more digit beyond the buffer. */
  lemma {:induction false} Drop(d: seq<char>, fractional: nat, buffer: seq<char>, pos: nat, exponent: int,
                                insignificant: nat, dropped: bool,
                                c: char, behindPoint: bool)
    requires Scanned(d, fractional, buffer, pos, exponent, insignificant, dropped) && pos == MAX_SIGNIFICANT_DIGITS &&
             IsDigit(c)
    ensures Scanned(d + [c], if behindPoint then fractional + 1 else fractional, buffer, pos, exponent,
                    if behindPoint then insignificant else insignificant + 1, dropped || c != '0')
  {
    hide Stripped;
    StrippedAppend(d, c);
    var s := Stripped(d);
    assert (s + [c])[..pos] == s[..pos];
    assert (s + [c])[pos..] == s[pos..] + [c];
    MoreNonzero(s[pos..], c);
  }

  lemma {:induction false} MoreNonzero(s: seq<char>, c: char)
    ensures HasNonzero(s + [c]) <==> HasNonzero(s) || c != '0'
  {
    var t := s + [c];
    if c != '0' { assert t[|s|] != '0'; }
    if HasNonzero(s) {
      var i :| 0 <= i < |s| && s[i] != '0';
      assert t[i] != '0';
    }
  }

  /** One more leading zero. */
  lemma {:induction false} SkipZero(d: seq<char>, fractional: nat, buffer: seq<char>, exponent: int,
                                    insignificant: nat, dropped: bool, behindPoint: bool)
    requires Scanned(d, fractional, buffer, 0, exponent, insignificant, dropped)
    ensures Scanned(d + ['0'], if behindPoint then fractional + 1 else fractional, buffer, 0,
                    if behindPoint then exponent - 1 else exponent, insignificant, dropped)
    ensures Stripped(d) == [] && !dropped && insignificant == 0
  {
    hide Stripped;
    StrippedAppend(d, '0');
    assert Stripped(d)[0..] == Stripped(d);
  }

  lemma {:induction false} StartScan(buffer: seq<char>)
    ensures Scanned([], 0, buffer, 0, 0, 0, false)
  {
  }

  lemma {:induction false} Extend(text: seq<char>, from: nat, current: nat)
    requires from <= current < |text|
    ensures text[from..current + 1] == text[from..current] + [text[current]]
  {
  }

  /** Skips the zeros in front and copies the digits before the point, as many as are significant. */
  method ScanWhole(text: seq<char>, from: nat, buffer: array<char>)
    returns (current: nat, pos: nat, insignificant: nat, dropped: bool, leadingZero: bool, zero: bool)
    requires from < |text| && buffer.Length == BUFFER_SIZE
    modifies buffer
    ensures from <= current <= |text| && current == DigitsEnd(text, from)
    ensures Scanned(text[from..current], 0, buffer[..], pos, 0, insignificant, dropped)
    ensures leadingZero || pos > 0 <==> current > from
    ensures zero ==> current == |text| && pos == 0
  {
    hide Scanned, DigitsEnd;
    current, pos, insignificant, dropped, leadingZero, zero := from, 0, 0, false, false, false;
    StartScan(buffer[..]);
    assert text[from..from] == [];
    if text[current] == '0' {
      leadingZero := true;
      while current < |text| && text[current] == '0'
        invariant from <= current <= |text| && (current > from || text[current] == '0')
        invariant Scanned(text[from..current], 0, buffer[..], 0, 0, 0, false)
      {
        SkipZero(text[from..current], 0, buffer[..], 0, 0, false, false);
        Extend(text, from, current);
        current := current + 1;
      }
      if current == |text| {
        ScannedDigits(text[from..current], 0, buffer[..], 0, 0, 0, false);
        DigitsEndIs(text, from, current);
        zero := true;
        return;
      }
    }
    while current < |text| && IsDigit(text[current])
      invariant from <= current <= |text| && pos <= MAX_SIGNIFICANT_DIGITS &&
                (leadingZero || pos > 0 <==> current > from)
      invariant Scanned(text[from..current], 0, buffer[..], pos, 0, insignificant, dropped)
      invariant pos == 0 && current < |text| ==> text[current] != '0'
    {
      Extend(text, from, current);
      if pos < MAX_SIGNIFICANT_DIGITS {
        Keep(text[from..current], 0, buffer[..], buffer[..][pos := text[current]], pos, 0, insignificant, dropped,
             text[current], false);
        buffer[pos] := text[current];
        pos := pos + 1;
      } else {
        Drop(text[from..current], 0, buffer[..], pos, 0, insignificant, dropped, text[current], false);
        insignificant := insignificant + 1;
        dropped := dropped || text[current] != '0';
      }
      current := current + 1;
    }
    ScannedDigits(text[from..current], 0, buffer[..], pos, 0, insignificant, dropped);
    DigitsEndIs(text, from, current);
  }

  lemma {:induction false} ScannedDigits(d: seq<char>, fractional: nat, buffer: seq<char>, pos: nat, exponent: int,
                                         insignificant: nat, dropped: bool)
    requires Scanned(d, fractional, buffer, pos, exponent, insignificant, dropped)
    ensures AllDigits(d) && (|d| > 0 && pos == 0 ==> Stripped(d) == []) && (fractional == 0 ==> exponent == 0)
    ensures pos == 0 ==> insignificant == 0 && exponent == -(fractional as int)
    ensures pos <= MAX_SIGNIFICANT_DIGITS
  {
    hide Stripped;
  }

  /** Copies the digits behind the point; zeros in front of all others only count for the exponent. */
  method ScanFraction(text: seq<char>, from: nat, buffer: array<char>, posIn: nat, insignificant: nat, droppedIn: bool,
                      ghost whole: seq<char>)
    returns (current: nat, pos: nat, exponent: int, dropped: bool, zero: bool)
    requires from < |text| && buffer.Length == BUFFER_SIZE &&
             Scanned(whole, 0, buffer[..], posIn, 0, insignificant, droppedIn)
    modifies buffer
    ensures from <= current <= |text| && current == DigitsEnd(text, from)
    ensures Scanned(whole + text[from..current], current - from, buffer[..], pos, exponent, insignificant, dropped)
    ensures pos >= posIn && (zero ==> current == |text| && current > from && pos == 0)
  {
    hide Scanned, DigitsEnd;
    current, pos, exponent, dropped, zero := from, posIn, 0, droppedIn, false;
    assert whole + text[from..from] == whole;
    ScannedDigits(whole, 0, buffer[..], posIn, 0, insignificant, droppedIn);
    if pos == 0 {
      while current < |text| && text[current] == '0'
        invariant from <= current <= |text| &&
                  Scanned(whole + text[from..current], current - from, buffer[..], 0, exponent, insignificant, dropped)
      {
        SkipZero(whole + text[from..current], current - from, buffer[..], exponent, insignificant, dropped, true);
        ExtendBoth(whole, text, from, current);
        current := current + 1;
        exponent := exponent - 1;
      }
      if current == |text| {
        ScannedPart(whole, text[from..current], current - from, buffer[..], 0, exponent, insignificant, dropped);
        DigitsEndIs(text, from, current);
        zero := true;
        return;
      }
    }
    while current < |text| && IsDigit(text[current])
      invariant from <= current <= |text| && posIn <= pos <= MAX_SIGNIFICANT_DIGITS
      invariant Scanned(whole + text[from..current], current - from, buffer[..], pos, exponent, insignificant, dropped)
      invariant pos == 0 && current < |text| ==> text[current] != '0'
    {
      ExtendBoth(whole, text, from, current);
      ghost var d := whole + text[from..current];
      if pos < MAX_SIGNIFICANT_DIGITS {
        Keep(d, current - from, buffer[..], buffer[..][pos := text[current]], pos, exponent, insignificant, dropped,
             text[current], true);
        buffer[pos] := text[current];
        pos := pos + 1;
        exponent := exponent - 1;
      } else {
        Drop(d, current - from, buffer[..], pos, exponent, insignificant, dropped, text[current], true);
        dropped := dropped || text[current] != '0';
      }
      current := current + 1;
    }
    ScannedPart(whole, text[from..current], current - from, buffer[..], pos, exponent, insignificant, dropped);
    DigitsEndIs(text, from, current);
  }

  lemma {:induction false} ExtendBoth(whole: seq<char>, text: seq<char>, from: nat, current: nat)
    requires from <= current < |text|
    ensures whole + text[from..current + 1] == whole + text[from..current] + [text[current]]
  {
    Extend(text, from, current);
  }

  lemma {:induction false} ScannedPart(whole: seq<char>, part: seq<char>, fractional: nat, buffer: seq<char>, pos: nat,
                                       exponent: int, insignificant: nat, dropped: bool)
    requires Scanned(whole + part, fractional, buffer, pos, exponent, insignificant, dropped)
    ensures AllDigits(part)
  {
    var d := whole + part;
    forall i | 0 <= i < |part|
      ensures '0' <= part[i] <= '9'
    {
      assert part[i] == d[|whole| + i];
    }
  }

  // ---- The exponent ----

  /** num stands for the exponent, which may be beyond what an int holds. */
  predicate Clipped(exponent: int, num: int) {
    || (num == exponent && -MAX_EXPONENT <= exponent <= MAX_EXPONENT)
    || (num == MAX_EXPONENT && exponent > MAX_EXPONENT)
    || (num == -MAX_EXPONENT && exponent < -MAX_EXPONENT)
  }

  lemma {:induction false} ClipStep(value: nat, num: int, digit: int)
    requires num == Min(value, MAX_EXPONENT) && 0 <= digit <= 9
    ensures (if num >= MAX_EXPONENT / 10 && !(num == MAX_EXPONENT / 10 && digit <= MAX_EXPONENT % 10) then MAX_EXPONENT
             else num * 10 + digit)
         == Min(value * 10 + digit, MAX_EXPONENT)
  {
  }

  /** Reads the exponent behind its mark; a failure means that there are no digits. */
  method ScanExponent(text: seq<char>, mark: nat) returns (ok: bool, current: nat, num: int)
    requires mark < |text| && IsExponentMark(text[mark])
    ensures !ok ==> ExponentFrom(text, mark) == None
    ensures ok ==> mark < current <= |text| && (ExponentFrom(text, mark).Some? <==> current == |text|)
    ensures ok && current == |text| ==> Clipped(ExponentFrom(text, mark).value, num)
  {
    hide DecimalValue, DigitsEnd;
    current, num := mark + 1, 0;
    if current == |text| {
      return false, current, 0;
    }
    var sign := '+';
    if IsSign(text[current]) {
      sign := text[current];
      current := current + 1;
      if current == |text| {
        return false, current, 0;
      }
    }
    if !IsDigit(text[current]) {
      return false, current, 0;
    }
    ghost var start := current;
    DecimalEmpty(text[start..start]);
    while current < |text| && IsDigit(text[current])
      invariant start <= current <= |text| && AllDigits(text[start..current]) &&
                num == Min(DecimalValue(text[start..current]), MAX_EXPONENT)
    {
      var digit := text[current] as int - '0' as int;
      AppendedValue(text, start, current);
      ClipStep(DecimalValue(text[start..current]), num, digit);
      if num >= MAX_EXPONENT / 10 && !(num == MAX_EXPONENT / 10 && digit <= MAX_EXPONENT % 10) {
        num := MAX_EXPONENT;
      } else {
        num := num * 10 + digit;
      }
      current := current + 1;
    }
    DigitsEndIs(text, start, current);
    if current == |text| { assert text[start..] == text[start..current]; }
    ok := true;
    num := if sign == '-' then -num else num;
  }

  lemma {:induction false} AppendedValue(text: seq<char>, start: nat, current: nat)
    requires start <= current < |text| && AllDigits(text[start..current]) && IsDigit(text[current])
    ensures AllDigits(text[start..current + 1])
    ensures DecimalValue(text[start..current + 1]) == DecimalValue(text[start..current]) * 10 +
            (text[current] as int - '0' as int)
  {
    hide DecimalValue;
    var s := text[start..current + 1];
    Extend(text, start, current);
    DecimalSnoc(s, current - start);
    assert s[..current - start] == text[start..current] && s[..current - start + 1] == s;
  }

  // ---- Rounding ----

  /** Zeros behind the kept digits only move the exponent. */
  lemma {:induction false} KeptValue(s: seq<char>, pos: nat, e: int)
    requires AllDigits(s) && pos <= |s| && !HasNonzero(s[pos..])
    ensures Decimal(DecimalValue(s), e) == Decimal(DecimalValue(s[..pos]), e + |s| - pos)
  {
    hide DecimalValue, Pow, Exp;
    assert s == s[..pos] + s[pos..];
    DecimalConcat(s[..pos], s[pos..]);
    ZerosValue(s[pos..]);
    CoarseDecimal(DecimalValue(s[..pos]), e, |s| - pos);
  }

  /** A one stands for all digits that have been dropped. */
  lemma {:induction false} StickyValue(s: seq<char>, pos: nat, e: int)
    requires AllDigits(s) && pos == MAX_SIGNIFICANT_DIGITS <= |s| && s[0] != '0' && HasNonzero(s[pos..])
    ensures AllDigits(s[..pos] + ['1'])
    ensures SameSide(Decimal(DecimalValue(s), e), Decimal(DecimalValue(s[..pos] + ['1']), e + |s| - pos - 1))
  {
    hide DecimalValue, Pow, Decimal, Double.UpperBoundary, DiyFp.Value;
    var head, tail, t := s[..pos], s[pos..], |s| - pos;
    var p, k := DecimalValue(head), e + t;
    assert s == head + tail;
    DecimalConcat(head, tail);
    DecimalBound(tail);
    ZerosValue(tail);
    var i :| 0 <= i < |tail| && tail[i] != '0';
    StrtodTrim.LeadingDigit(head);
    InsideUnit(p, DecimalValue(tail), t, e);
    DecimalConcat(head, ['1']);
    OneValue(['1']);
    PowBasics(10);
    InsideUnit(p, 1, 1, k - 1);
    forall d: Double | d.Finite()
      ensures !(Decimal(p, k) < d.UpperBoundary().Value() < Decimal(p + 1, k))
    {
      NoBoundaryBetween(d, p, k);
    }
  }

  /** The digits handed on. */
  function Handed(buffer: seq<char>, pos: nat, dropped: bool): seq<char>
    requires pos <= |buffer|
  {
    buffer[..pos] + if dropped then ['1'] else []
  }

  lemma {:induction false} ScannedRounding(d: seq<char>, fractional: nat, buffer: seq<char>, pos: nat, exponent: int,
                                           insignificant: nat, dropped: bool, num: int, r: Double)
    requires Scanned(d, fractional, buffer, pos, exponent, insignificant, dropped)
    ensures AllDigits(Handed(buffer, pos, dropped))
    ensures RoundsTo(Decimal(DecimalValue(Handed(buffer, pos, dropped)),
                             exponent + num + insignificant - if dropped then 1 else 0), r)
            ==> RoundsTo(Decimal(DecimalValue(d), num - fractional), r)
  {
    hide DecimalValue, Decimal, RoundsTo, SameSide, Stripped;
    var s := Stripped(d);
    StrippedValue(d);
    var e := num - fractional;
    if dropped {
      StickyValue(s, pos, e);
      DecimalNonNegative(DecimalValue(s), e);
      DecimalNonNegative(DecimalValue(s[..pos] + ['1']), e + |s| - pos - 1);
      SameSideRounding(Decimal(DecimalValue(s), e), Decimal(DecimalValue(s[..pos] + ['1']), e + |s| - pos - 1), r);
    } else {
      KeptValue(s, pos, e);
      assert Handed(buffer, pos, dropped) == s[..pos];
    }
  }

  /** A clipped exponent is so far out that the result is the same. */
  lemma {:induction false} ClippedRounding(d: seq<char>, fractional: nat, exponent: int, num: int, r: Double)
    requires AllDigits(d) && fractional <= |d| < 0x2000_0000 && Clipped(exponent, num) &&
             RoundsTo(Decimal(DecimalValue(d), num - fractional), r)
    ensures RoundsTo(Decimal(DecimalValue(d), exponent - fractional), r)
  {
    hide DecimalValue, Decimal, RoundsTo, Stripped;
    if exponent != num {
      var s := Stripped(d);
      StrippedValue(d);
      if |s| == 0 {
        DecimalEmpty(s);
        EmptyIsZero(num - fractional);
        EmptyIsZero(exponent - fractional);
        RoundsToUnique(Decimal(0, num - fractional), r, Double(0));
      } else if exponent > 0 {
        HugeIsInfinity(s, num - fractional);
        HugeIsInfinity(s, exponent - fractional);
        RoundsToUnique(Decimal(DecimalValue(s), num - fractional), r, Double(INFINITY));
      } else {
        SmallIsZero(s, num - fractional);
        SmallIsZero(s, exponent - fractional);
        RoundsToUnique(Decimal(DecimalValue(s), num - fractional), r, Double(0));
      }
    }
  }

  /** What the hardware may answer for the few inputs it is asked about. */
  ghost predicate SoundHardware(hardware: (seq<char>, int) -> Hardware) {
    forall s: seq<char>, e: int :: AllDigits(s) && hardware(s, e).Computed? ==>
        RoundsTo(Decimal(DecimalValue(s), e), hardware(s, e).result)
  }

  /** The text is junk exactly if it spells no number; otherwise the result is that number, correctly rounded, with its
      sign. */
  ghost predicate IsReading(text: seq<char>, r: Reading) {
    if text == [] then r == EmptyText
    else match ParseNumeral(text)
      case None => r == Junk
      case Some(n) => r.Number? && r.negative == n.negative && n.Valid() && RoundsTo(n.Magnitude(), r.magnitude)
  }

  /** Hands the digits to the converter. */
  method Convert(buffer: array<char>, posIn: nat, exponentIn: int, num: int, insignificant: nat, dropped: bool,
                 hardware: (seq<char>, int) -> Hardware,
                 table: seq<DiyFp>, ghost d: seq<char>, ghost fractional: nat, ghost exact: int)
    returns (r: Double)
    requires buffer.Length == BUFFER_SIZE && AccurateTable(table) && SoundHardware(hardware) &&
             fractional <= |d| < 0x2000_0000
    requires Scanned(d, fractional, buffer[..], posIn, exponentIn, insignificant, dropped) && Clipped(exact, num)
    modifies buffer
    ensures AllDigits(d) && RoundsTo(Decimal(DecimalValue(d), exact - fractional), r)
  {
    hide DecimalValue, Decimal, RoundsTo, AccurateTable, Scanned;
    ScannedDigits(d, fractional, buffer[..], posIn, exponentIn, insignificant, dropped);
    ghost var digits := Handed(buffer[..], posIn, dropped);
    var pos, exponent := posIn, exponentIn + num + insignificant;
    if dropped {
      buffer[pos] := '1';
      pos := pos + 1;
      exponent := exponent - 1;
    }
    assert buffer[..pos] == digits;
    ghost var before := old(buffer[..]);
    ScannedHanded(d, fractional, before, posIn, exponentIn, insignificant, dropped, num);
    r := Strtod(buffer[..pos], exponent, hardware(buffer[..pos], exponent), table);
    ScannedRounding(d, fractional, before, posIn, exponentIn, insignificant, dropped, num, r);
    ClippedRounding(d, fractional, exact, num, r);
  }

  lemma {:induction false} ScannedHanded(d: seq<char>, fractional: nat, buffer: seq<char>, pos: nat, exponent: int,
                                         insignificant: nat, dropped: bool, num: int)
    requires Scanned(d, fractional, buffer, pos, exponent, insignificant, dropped)
    ensures AllDigits(Handed(buffer, pos, dropped))
  {
    hide RoundsTo, Decimal, DecimalValue;
    ScannedRounding(d, fractional, buffer, pos, exponent, insignificant, dropped, num, Double(0));
  }

  /** The pieces that have been found are those of the numeral. */
  lemma {:induction false} Assembled(text: seq<char>, a: nat, b: nat, c: nat, d: nat)
    requires a <= b <= c <= d <= |text| && a == SignEnd(text) && b == DigitsEnd(text, a) && |text| > 0
    requires if b < |text| && text[b] == '.' then c == b + 1 && d == DigitsEnd(text, c) else c == b && d == c
    ensures ParseNumeral(text).Some? <==> (b - a) + (d - c) > 0 && ExponentFrom(text, d).Some?
    ensures ParseNumeral(text).Some? ==> ParseNumeral(text).value == Numeral(text[0] == '-', text[a..b], text[c..d],
        ExponentFrom(text, d).value)
  {
    hide DigitsEnd, ExponentFrom;
  }

  lemma {:induction false} ZeroDigits(d: seq<char>, fractional: nat, buffer: seq<char>, exponent: int,
                                      insignificant: nat, dropped: bool, e: int)
    requires Scanned(d, fractional, buffer, 0, exponent, insignificant, dropped)
    ensures AllDigits(d) && (|d| > 0 ==> RoundsTo(Decimal(DecimalValue(d), e), Double(0)))
  {
    hide RoundsTo, Decimal, Stripped, DecimalValue;
    ScannedDigits(d, fractional, buffer, 0, exponent, insignificant, dropped);
    if |d| > 0 {
      StrippedValue(d);
      DecimalEmpty(Stripped(d));
      EmptyIsZero(e);
    }
  }

  /** The result of reading a numeral. */
  lemma {:induction false} IsNumber(text: seq<char>, a: nat, b: nat, c: nat, d: nat, r: Double)
    requires a <= b <= c <= d <= |text| && a == SignEnd(text) && b == DigitsEnd(text, a) && |text| > 0
    requires if b < |text| && text[b] == '.' then c == b + 1 && d == DigitsEnd(text, c) else c == b && d == c
    requires (b - a) + (d - c) > 0 && ExponentFrom(text, d).Some? && AllDigits(text[a..b] + text[c..d])
    requires RoundsTo(Decimal(DecimalValue(text[a..b] + text[c..d]), ExponentFrom(text, d).value - (d - c)), r)
    ensures IsReading(text, Number(text[0] == '-', r))
  {
    hide DigitsEnd, ExponentFrom, RoundsTo, Decimal, DecimalValue;
    Assembled(text, a, b, c, d);
    ParsedIsValid(text);
  }

  lemma {:induction false} IsJunk(text: seq<char>, a: nat, b: nat, c: nat, d: nat)
    requires a <= b <= c <= d <= |text| && a == SignEnd(text) && b == DigitsEnd(text, a) && |text| > 0
    requires if b < |text| && text[b] == '.' then c == b + 1 && d == DigitsEnd(text, c) else c == b && d == c
    requires (b - a) + (d - c) == 0 || ExponentFrom(text, d) == None
    ensures IsReading(text, Junk)
  {
    hide DigitsEnd, ExponentFrom;
    Assembled(text, a, b, c, d);
  }

  /** From the end of the fraction on: the exponent, and the conversion. */
  method ReadRest(text: seq<char>, a: nat, b: nat, c: nat, d: nat, buffer: array<char>, pos: nat, exponent: int,
                  insignificant: nat, dropped: bool,
                  leadingZero: bool, hardware: (seq<char>, int) -> Hardware, table: seq<DiyFp>)
    returns (r: Reading)
    requires a <= b <= c <= d < |text| < 0x2000_0000 && a == SignEnd(text) && b == DigitsEnd(text, a)
    requires if text[b] == '.' then c == b + 1 && d == DigitsEnd(text, c) else c == b && d == c
    requires buffer.Length == BUFFER_SIZE && AccurateTable(table) && SoundHardware(hardware)
    requires Scanned(text[a..b] + text[c..d], d - c, buffer[..], pos, exponent, insignificant, dropped)
    requires (leadingZero ==> b > a) && (b > a ==> leadingZero || pos > 0)
    modifies buffer
    ensures IsReading(text, r)
  {
    hide DigitsEnd, ExponentFrom, RoundsTo, Decimal, DecimalValue, AccurateTable, SoundHardware, Scanned, IsReading,
         SignEnd;
    ghost var digits := text[a..b] + text[c..d];
    ScannedDigits(digits, d - c, buffer[..], pos, exponent, insignificant, dropped);
    if !leadingZero && exponent == 0 && pos == 0 {
      IsJunk(text, a, b, c, d);
      return Junk;
    }
    SomeDigits(digits, d - c, buffer[..], pos, exponent, insignificant, dropped);
    if !IsExponentMark(text[d]) {
      NoExponent(text, d);
      IsJunk(text, a, b, c, d);
      return Junk;
    }
    var ok, current, num := ScanExponent(text, d);
    if !ok || current != |text| {
      IsJunk(text, a, b, c, d);
      return Junk;
    }
    var magnitude := Convert(buffer, pos, exponent, num, insignificant, dropped, hardware, table, digits, d - c,
                             ExponentFrom(text, d).value);
    IsNumber(text, a, b, c, d, magnitude);
    r := Number(text[0] == '-', magnitude);
  }

  lemma {:induction false} NoExponent(text: seq<char>, d: nat)
    requires d < |text| && !IsExponentMark(text[d])
    ensures ExponentFrom(text, d) == None
  {
    hide DigitsEnd;
  }

  lemma {:induction false} SomeDigits(d: seq<char>, fractional: nat, buffer: seq<char>, pos: nat, exponent: int,
                                      insignificant: nat, dropped: bool)
    requires Scanned(d, fractional, buffer, pos, exponent, insignificant, dropped) && fractional <= |d|
    ensures pos > 0 || exponent != 0 ==> |d| > 0
  {
  }

  /** The text ends with the digits. */
  method ReadPlain(text: seq<char>, a: nat, b: nat, c: nat, buffer: array<char>, pos: nat, exponent: int,
                   insignificant: nat, dropped: bool,
                   hardware: (seq<char>, int) -> Hardware, table: seq<DiyFp>)
    returns (r: Reading)
    requires a <= b <= c <= |text| < 0x2000_0000 && a == SignEnd(text) && b == DigitsEnd(text, a) && 0 < |text|
    requires if b < |text| && text[b] == '.' then c == b + 1 && |text| == DigitsEnd(text, c) else c == b == |text|
    requires buffer.Length == BUFFER_SIZE && AccurateTable(table) && SoundHardware(hardware)
    requires Scanned(text[a..b] + text[c..], |text| - c, buffer[..], pos, exponent, insignificant, dropped) &&
             (b - a) + (|text| - c) > 0
    modifies buffer
    ensures IsReading(text, r)
  {
    hide DigitsEnd, RoundsTo, Decimal, DecimalValue, AccurateTable, SoundHardware, Scanned, IsReading, SignEnd;
    ghost var d := |text|;
    assert text[c..] == text[c..d];
    var magnitude := Convert(buffer, pos, exponent, 0, insignificant, dropped, hardware, table, text[a..b] + text[c..],
                             |text| - c, 0);
    IsNumber(text, a, b, c, d, magnitude);
    r := Number(text[0] == '-', magnitude);
  }

  method ReadZero(text: seq<char>, a: nat, b: nat, c: nat, ghost buffer: seq<char>, ghost exponent: int,
                  ghost insignificant: nat, ghost dropped: bool)
    returns (r: Reading)
    requires a <= b <= c <= |text| && a == SignEnd(text) && b == DigitsEnd(text, a) && 0 < |text|
    requires if b < |text| && text[b] == '.' then c == b + 1 && |text| == DigitsEnd(text, c) else c == b == |text|
    requires Scanned(text[a..b] + text[c..], |text| - c, buffer, 0, exponent, insignificant, dropped) &&
             (b - a) + (|text| - c) > 0
    ensures IsReading(text, r)
  {
    hide DigitsEnd, RoundsTo, Decimal, DecimalValue, Scanned, IsReading, SignEnd;
    ghost var d := |text|;
    assert text[c..] == text[c..d];
    ZeroDigits(text[a..b] + text[c..], |text| - c, buffer, exponent, insignificant, dropped, 0 - (d - c));
    IsNumber(text, a, b, c, d, Double(0));
    r := Number(text[0] == '-', Double(0));
  }

  /** Reads a text that must be a number as a whole. */
  method StringToIeee(text: seq<char>, hardware: (seq<char>, int) -> Hardware, table: seq<DiyFp>) returns (r: Reading)
    requires |text| < 0x2000_0000 && AccurateTable(table) && SoundHardware(hardware)
    ensures IsReading(text, r)
  {
    hide DigitsEnd, ExponentFrom, RoundsTo, Decimal, DecimalValue, AccurateTable, SoundHardware, Scanned, IsReading;
    if |text| == 0 {
      EmptyReading(text);
      return EmptyText;
    }
    var buffer := new char[BUFFER_SIZE];
    var a := 0;
    if IsSign(text[0]) {
      a := 1;
      if a == |text| {
        NothingBehindSign(text);
        IsJunk(text, a, a, a, a);
        return Junk;
      }
    }
    var b, pos, insignificant, dropped, leadingZero, zero := ScanWhole(text, a, buffer);
    assert text[a..b] + text[b..b] == text[a..b];
    if b == |text| {
      assert text[b..] == [];
      if zero {
        r := ReadZero(text, a, b, b, buffer[..], 0, insignificant, dropped);
      } else {
        r := ReadPlain(text, a, b, b, buffer, pos, 0, insignificant, dropped, hardware, table);
      }
      return;
    }
    if text[b] != '.' {
      r := ReadRest(text, a, b, b, b, buffer, pos, 0, insignificant, dropped, leadingZero, hardware, table);
      return;
    }
    r := ReadFraction(text, a, b, buffer, pos, insignificant, dropped, leadingZero, hardware, table);
  }

  lemma {:induction false} EmptyReading(text: seq<char>)
    requires |text| == 0
    ensures IsReading(text, EmptyText)
  {
  }

  lemma {:induction false} NothingBehindSign(text: seq<char>)
    ensures DigitsEnd(text, |text|) == |text|
  {
  }

  /** From the point on. */
  method ReadFraction(text: seq<char>, a: nat, b: nat, buffer: array<char>, posIn: nat, insignificant: nat,
                      droppedIn: bool, leadingZero: bool,
                      hardware: (seq<char>, int) -> Hardware, table: seq<DiyFp>)
    returns (r: Reading)
    requires a <= b < |text| < 0x2000_0000 && a == SignEnd(text) && b == DigitsEnd(text, a) && text[b] == '.'
    requires buffer.Length == BUFFER_SIZE && AccurateTable(table) && SoundHardware(hardware)
    requires Scanned(text[a..b], 0, buffer[..], posIn, 0, insignificant, droppedIn) &&
             (leadingZero || posIn > 0 <==> b > a)
    modifies buffer
    ensures IsReading(text, r)
  {
    hide DigitsEnd, ExponentFrom, RoundsTo, Decimal, DecimalValue, AccurateTable, SoundHardware, Scanned, IsReading,
         SignEnd;
    var c := b + 1;
    if c == |text| {
      NothingBehindSign(text);
      if posIn == 0 && !leadingZero {
        IsJunk(text, a, b, c, c);
        r := Junk;
      } else {
        assert text[a..b] + text[c..] == text[a..b];
        r := ReadPlain(text, a, b, c, buffer, posIn, 0, insignificant, droppedIn, hardware, table);
      }
      return;
    }
    var d, pos, exponent, dropped, zero := ScanFraction(text, c, buffer, posIn, insignificant, droppedIn, text[a..b]);
    StillDigits(text[a..b], text[c..d], d - c, buffer[..], pos, exponent, insignificant, dropped);
    if d == |text| {
      assert text[c..] == text[c..d];
      if zero {
        r := ReadZero(text, a, b, c, buffer[..], exponent, insignificant, dropped);
      } else {
        r := ReadPlain(text, a, b, c, buffer, pos, exponent, insignificant, dropped, hardware, table);
      }
      return;
    }
    r := ReadRest(text, a, b, c, d, buffer, pos, exponent, insignificant, dropped, leadingZero, hardware, table);
  }

  lemma {:induction false} StillDigits(whole: seq<char>, part: seq<char>, fractional: nat, buffer: seq<char>, pos: nat,
                                       exponent: int, insignificant: nat, dropped: bool)
    requires Scanned(whole + part, fractional, buffer, pos, exponent, insignificant, dropped)
    ensures |whole| + |part| == 0 ==> pos == 0
  {
  }
}
