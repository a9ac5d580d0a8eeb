/** Writing digits and a decimal point as text, and printing doubles. */
module TextPrinting {
  import opened Wrappers
  import opened Arith
  import opened RealPowers
  import opened Decimals
  import opened Ieee
  import opened DecimalRounding
  import opened NumberText
  import opened TextLayout
  import opened FixedDigits
  import opened Dtoa
  import opened FastStrtod
  import opened FastPrinter
  import opened FastFixedPrinter
  import opened DoubleToDigits
  import DigitFilling
  import StringToDouble

  class StringBuilder {
    var contents: seq<char>

    constructor ()
      ensures contents == ""
    {
      contents := "";
    }

    method AddCharacter(c: char)
      modifies this
      ensures contents == old(contents) + [c]
    {
      contents := contents + [c];
    }

    method AddSubstring(s: seq<char>)
      modifies this
      ensures contents == old(contents) + s
    {
      contents := contents + s;
    }

    method AddPadding(c: char, count: int)
      modifies this
      ensures contents == old(contents) + seq(if count > 0 then count else 0, _ => c)
    {
      var i := 0;
      assert contents == old(contents) + seq(0, _ => c);
      while i < count
        invariant 0 <= i <= (if count > 0 then count else 0) && contents == old(contents) + seq(i, _ => c)
      {
        contents := contents + [c];
        i := i + 1;
      }
    }
  }

  // ---- What the texts denote ----

  /** The value of a numeral does not depend on how its digits are split at the point, nor on zeros at either end. */
  lemma {:induction false} SplitValue(n: Numeral, digits: seq<char>, before: nat, after: nat, e: int)
    requires AllDigits(digits) && n.Valid() && n.whole + n.fraction == Zeros(before) + digits + Zeros(after) &&
             n.exponent - |n.fraction| == e - after
    ensures n.Magnitude() == Decimal(DecimalValue(digits), e)
  {
    hide DecimalValue, Decimal, Pow;
    ZerosInFront(before, digits);
    assert Zeros(before) + digits + Zeros(after) == (Zeros(before) + digits) + Zeros(after);
    ZerosAreZero(Zeros(before) + digits, after);
    CoarseDecimal(DecimalValue(digits), e - after, after);
  }

  lemma {:induction false} ZerosInFront(k: nat, digits: seq<char>)
    requires AllDigits(digits)
    ensures AllDigits(Zeros(k) + digits) && DecimalValue(Zeros(k) + digits) == DecimalValue(digits)
    decreases k
  {
    hide DecimalValue, Pow;
    assert AllDigits(Zeros(k));
    DecimalConcat(Zeros(k), digits);
    ZeroOfZeros(k);
    assert AllDigits(Zeros(k) + digits);
  }

  lemma {:induction false} ZeroOfZeros(k: nat)
    ensures AllDigits(Zeros(k)) && DecimalValue(Zeros(k)) == 0
    decreases k
  {
    if k > 0 {
      ZeroOfZeros(k - 1);
      assert Zeros(k)[..k - 1] == Zeros(k - 1);
    }
  }

  // ---- The exponential form ----

  /** The digits of the exponent, written from the back of a small buffer. */
  method ExponentDigits(exponentIn: nat) returns (digits: seq<char>)
    requires exponentIn < 10000
    ensures IsWhole(digits) && |digits| <= 5 && DecimalValue(digits) == exponentIn
  {
    hide DecimalValue, Pow;
    if exponentIn == 0 {
      SingleZero();
      return "0";
    }
    var exponent, buffer, firstCharPos := exponentIn, new char[5], 5;
    DecimalEmpty(buffer[5..]);
    TenToFour();
    while exponent > 0
      invariant 0 <= firstCharPos <= 5 && AllDigits(buffer[firstCharPos..]) && exponent >= 0
      invariant exponent * Pow(10, 5 - firstCharPos) + DecimalValue(buffer[firstCharPos..]) == exponentIn
      invariant exponent == 0 ==> firstCharPos < 5 && buffer[firstCharPos] != '0'
    {
      SmallExponent(exponent, firstCharPos, DecimalValue(buffer[firstCharPos..]), exponentIn);
      ghost var tail := buffer[firstCharPos..];
      firstCharPos := firstCharPos - 1;
      buffer[firstCharPos] := ('0' as int + exponent % 10) as char;
      assert buffer[firstCharPos..] == [buffer[firstCharPos]] + tail;
      DigitFilling.FrontDigit(buffer[firstCharPos], tail);
      TensSplit(exponent, 4 - firstCharPos);
      exponent := exponent / 10;
    }
    ZeroTimes(Pow(10, 5 - firstCharPos));
    digits := buffer[firstCharPos..];
  }

  lemma {:induction false} ZeroTimes(p: int)
    ensures 0 * p == 0
  {
  }

  lemma {:induction false} SingleZero()
    ensures AllDigits("0") && DecimalValue("0") == 0
  {
    assert "0"[..0] == "";
  }

  lemma {:induction false} SmallExponent(exponent: nat, pos: int, value: nat, total: nat)
    requires exponent > 0 && 0 <= pos <= 5 && exponent * Pow(10, 5 - pos) + value == total < 10000
    ensures pos > 1
  {
    hide Pow;
    if pos <= 1 {
      PowMono(10, 4, 5 - pos);
      TenToFour();
      MulMono(1, exponent, Pow(10, 5 - pos));
    }
  }

  lemma {:induction false} TenToFour()
    ensures Pow(10, 4) == 10000 && Pow(10, 0) == 1
  {
    assert Pow(10, 2) == 100;
  }

  lemma {:induction false} TensSplit(exponent: nat, k: nat)
    ensures exponent / 10 * Pow(10, k + 1) + exponent % 10 * Pow(10, k) == exponent * Pow(10, k)
  {
    var q, r, p := exponent / 10, exponent % 10, Pow(10, k);
    assert exponent == q * 10 + r;
    SplitTen(q, r, p);
  }

  lemma {:induction false} SplitTen(q: int, r: int, p: int)
    ensures q * (10 * p) + r * p == (q * 10 + r) * p
  {
  }

  /** The mark, the sign and the digits of an exponent. */
  function ExponentText(style: Style, exponent: int, exponentDigits: seq<char>): seq<char> {
    [style.exponentCharacter] + SignOfExponent(style, exponent) + exponentDigits
  }

  function ExponentialText(style: Style, digits: seq<char>, exponent: int, exponentDigits: seq<char>): seq<char>
    requires |digits| > 0
  {
    [digits[0]] + (if |digits| == 1 then "" else ".") + digits[1..] + ExponentText(style, exponent, exponentDigits)
  }

  lemma {:induction false} ExponentialDenotes(style: Style, digits: seq<char>, exponent: int, exponentDigits: seq<char>)
    requires AllDigits(digits) && |digits| > 0 && style.Valid() && IsWhole(exponentDigits)
    requires DecimalValue(exponentDigits) == if exponent < 0 then -exponent else exponent
    ensures Denotes(ExponentialText(style, digits, exponent, exponentDigits),
                    Decimal(DecimalValue(digits), exponent + 1 - |digits|))
    ensures IsScientific(style, ExponentialText(style, digits, exponent, exponentDigits), |digits| - 1, exponent)
  {
    hide DecimalValue, Decimal, Denotes;
    var n := Numeral(false, digits[..1], digits[1..], exponent);
    var mark := ExponentText(style, exponent, exponentDigits);
    var sign := SignOfExponent(style, exponent);
    assert n.whole + n.fraction == Zeros(0) + digits + Zeros(0);
    SplitValue(n, digits, 0, 0, exponent + 1 - |digits|);
    assert ExponentPieces(mark, style.exponentCharacter, sign, exponent < 0, exponentDigits, exponent);
    var text := ExponentialText(style, digits, exponent, exponentDigits);
    assert text == "" + n.whole + (if |digits| == 1 then "" else ".") + n.fraction + mark;
    SpelledDenotes(text, n, if |digits| == 1 then "" else ".", mark,
                   Decimal(DecimalValue(digits), exponent + 1 - |digits|));
    assert ScientificParts(style, text, |digits| - 1, exponent, digits[0], digits[1..], exponentDigits);
  }

  /** Appends d.ddde[-]x; reading it gives the number of the digits at this exponent. */
  method CreateExponentialRepresentation(digits: seq<char>, exponentIn: int, style: Style,
                                         resultBuilder: StringBuilder) returns (ghost text: seq<char>)
    requires AllDigits(digits) && |digits| != 0 && style.Valid() && -10000 < exponentIn < 10000
    modifies resultBuilder
    ensures resultBuilder.contents == old(resultBuilder.contents) + text
    ensures Denotes(text, Decimal(DecimalValue(digits), exponentIn + 1 - |digits|)) && |text| <= |digits| + 8
    ensures IsScientific(style, text, |digits| - 1, exponentIn)
  {
    hide DecimalValue, Decimal, Denotes, IsScientific;
    var exponent := exponentIn;
    resultBuilder.AddCharacter(digits[0]);
    if |digits| != 1 {
      resultBuilder.AddCharacter('.');
      resultBuilder.AddSubstring(digits[1..]);
    }
    resultBuilder.AddCharacter(style.exponentCharacter);
    if exponent < 0 {
      resultBuilder.AddCharacter('-');
      exponent := -exponent;
    } else if style.emitPositiveExponentSign {
      resultBuilder.AddCharacter('+');
    }
    var exponentDigits := ExponentDigits(exponent);
    resultBuilder.AddSubstring(exponentDigits);
    text := ExponentialText(style, digits, exponentIn, exponentDigits);
    ExponentialDenotes(style, digits, exponentIn, exponentDigits);
  }

  // ---- The decimal form ----

  /** The digits around the point, as the padding leaves them. */
  function WholePart(digits: seq<char>, decimalPoint: int): seq<char> {
    if decimalPoint <= 0 then "0"
    else if decimalPoint >= |digits| then digits + Zeros(decimalPoint - |digits|)
    else digits[..decimalPoint]
  }

  /** Without places behind the point the option may still ask for a zero there. */
  function FractionPart(style: Style, digits: seq<char>, decimalPoint: int, digitsAfterPoint: nat): seq<char>
    requires Fits(digits, decimalPoint, digitsAfterPoint)
  {
    if digitsAfterPoint == 0 then (if style.emitTrailingZeroAfterPoint then "0" else "")
    else if decimalPoint <= 0 then Zeros(-decimalPoint) + digits + Zeros(digitsAfterPoint + decimalPoint - |digits|)
    else if decimalPoint >= |digits| then Zeros(digitsAfterPoint)
    else digits[decimalPoint..] + Zeros(digitsAfterPoint - (|digits| - decimalPoint))
  }

  /** The places behind the point hold all digits that belong there. */
  predicate Fits(digits: seq<char>, decimalPoint: int, digitsAfterPoint: nat) {
    if decimalPoint <= 0 then digitsAfterPoint > 0 ==>
           |digits| <= digitsAfterPoint + decimalPoint && 0 <= digitsAfterPoint + decimalPoint
    else decimalPoint < |digits| ==> digitsAfterPoint > 0 && |digits| - decimalPoint <= digitsAfterPoint
  }

  function DecimalText(style: Style, digits: seq<char>, decimalPoint: int, digitsAfterPoint: nat): seq<char>
    requires Fits(digits, decimalPoint, digitsAfterPoint)
  {
    WholePart(digits, decimalPoint) + (if digitsAfterPoint > 0 || style.emitTrailingDecimalPoint then "." else "")
    + FractionPart(style, digits, decimalPoint, digitsAfterPoint)
  }

  /** What stands before the point does not begin with a zero that could be left out. */
  predicate Leads(digits: seq<char>, decimalPoint: int) {
    decimalPoint <= 1 || (|digits| > 0 && digits[0] != '0')
  }

  lemma {:induction false} DecimalIsPlain(style: Style, digits: seq<char>, decimalPoint: int, digitsAfterPoint: nat)
    requires AllDigits(digits) && Fits(digits, decimalPoint, digitsAfterPoint) && Leads(digits, decimalPoint)
    ensures IsPlain(style, DecimalText(style, digits, decimalPoint, digitsAfterPoint), digitsAfterPoint)
  {
    var whole, fraction := WholePart(digits, decimalPoint), FractionPart(style, digits, decimalPoint, digitsAfterPoint);
    assert PlainParts(style, DecimalText(style, digits, decimalPoint, digitsAfterPoint), digitsAfterPoint, whole,
                      fraction);
  }

  lemma {:induction false} DecimalDenotes(style: Style, digits: seq<char>, decimalPoint: int, digitsAfterPoint: nat)
    requires AllDigits(digits) && style.Valid() && Fits(digits, decimalPoint, digitsAfterPoint)
    ensures Denotes(DecimalText(style, digits, decimalPoint, digitsAfterPoint),
                    if decimalPoint <= 0 && digitsAfterPoint == 0 then 0.0
                        else Decimal(DecimalValue(digits), decimalPoint - |digits|))
  {
    hide DecimalValue, Decimal, Denotes, WholePart, FractionPart;
    var n := Numeral(false, WholePart(digits, decimalPoint),
                     FractionPart(style, digits, decimalPoint, digitsAfterPoint), 0);
    var point := if digitsAfterPoint > 0 || style.emitTrailingDecimalPoint then "." else "";
    var text := DecimalText(style, digits, decimalPoint, digitsAfterPoint);
    DecimalParts(style, digits, decimalPoint, digitsAfterPoint);
    assert text == "" + n.whole + point + n.fraction + "";
    SpelledDenotes(text, n, point, "", if decimalPoint <= 0 && digitsAfterPoint == 0 then 0.0
                   else Decimal(DecimalValue(digits), decimalPoint - |digits|));
  }

  /** Together the parts are the digits between zeros. */
  lemma {:induction false} PartsJoined(style: Style, digits: seq<char>, decimalPoint: int, digitsAfterPoint: nat)
    requires Fits(digits, decimalPoint, digitsAfterPoint) && (decimalPoint > 0 || digitsAfterPoint > 0)
    ensures var fraction := FractionPart(style, digits, decimalPoint, digitsAfterPoint);
            && decimalPoint - |digits| + |fraction| >= 0
            && WholePart(digits, decimalPoint) + fraction == Zeros(if decimalPoint <= 0 then 1 - decimalPoint else 0) +
                 digits + Zeros(decimalPoint - |digits| + |fraction|)
  {
  }

  lemma {:induction false} PartsAreDigits(style: Style, digits: seq<char>, decimalPoint: int, digitsAfterPoint: nat)
    requires AllDigits(digits) && Fits(digits, decimalPoint, digitsAfterPoint) && style.Valid()
    ensures var whole, fraction := WholePart(digits, decimalPoint),
                                   FractionPart(style, digits, decimalPoint, digitsAfterPoint);
            && AllDigits(whole) && AllDigits(fraction) && |whole| > 0
            && (|fraction| > 0 ==> digitsAfterPoint > 0 || style.emitTrailingDecimalPoint)
  {
  }

  lemma {:induction false} DecimalParts(style: Style, digits: seq<char>, decimalPoint: int, digitsAfterPoint: nat)
    requires AllDigits(digits) && style.Valid() && Fits(digits, decimalPoint, digitsAfterPoint)
    ensures var n := Numeral(false, WholePart(digits, decimalPoint),
                             FractionPart(style, digits, decimalPoint, digitsAfterPoint), 0);
            && n.Valid() && |n.whole| > 0 &&
                (|n.fraction| > 0 ==> digitsAfterPoint > 0 || style.emitTrailingDecimalPoint)
            && n.Magnitude() == if decimalPoint <= 0 && digitsAfterPoint == 0 then 0.0
                else Decimal(DecimalValue(digits), decimalPoint - |digits|)
  {
    hide DecimalValue, Decimal, WholePart, FractionPart, Fits;
    var n := Numeral(false, WholePart(digits, decimalPoint),
                     FractionPart(style, digits, decimalPoint, digitsAfterPoint), 0);
    PartsAreDigits(style, digits, decimalPoint, digitsAfterPoint);
    if decimalPoint <= 0 && digitsAfterPoint == 0 {
      NoDigitsLeft(style, digits, decimalPoint);
      ZeroOfZeros(1 + |n.fraction|);
      ZeroDecimal(0 - |n.fraction|);
    } else {
      PartsJoined(style, digits, decimalPoint, digitsAfterPoint);
      SplitValue(n, digits, if decimalPoint <= 0 then 1 - decimalPoint else 0,
                 decimalPoint - |digits| + |n.fraction|, decimalPoint - |digits|);
    }
  }

  lemma {:induction false} NoDigitsLeft(style: Style, digits: seq<char>, decimalPoint: int)
    requires decimalPoint <= 0
    ensures Fits(digits, decimalPoint, 0)
    ensures var fraction := FractionPart(style, digits, decimalPoint, 0);
            WholePart(digits, decimalPoint) + fraction == Zeros(1 + |fraction|)
  {
  }

  /** The digits with their padding, without what the options add. */
  function PaddedText(digits: seq<char>, decimalPoint: int, digitsAfterPoint: nat): seq<char>
    requires Fits(digits, decimalPoint, digitsAfterPoint)
  {
    if digitsAfterPoint == 0 then WholePart(digits, decimalPoint)
    else if decimalPoint <= 0
        then "0" + "." + Zeros(-decimalPoint) + digits + Zeros(digitsAfterPoint + decimalPoint - |digits|)
    else if decimalPoint >= |digits| then digits + Zeros(decimalPoint - |digits|) + "." + Zeros(digitsAfterPoint)
    else digits[..decimalPoint] + "." + digits[decimalPoint..] + Zeros(digitsAfterPoint - (|digits| - decimalPoint))
  }

  lemma {:induction false} PaddingIsZeros(n: nat)
    ensures seq(if n > 0 then n else 0, _ => '0') == Zeros(n)
  {
  }

  method AddBelowOne(digits: seq<char>, decimalPoint: int, digitsAfterPoint: nat, resultBuilder: StringBuilder)
    requires decimalPoint <= 0 && Fits(digits, decimalPoint, digitsAfterPoint)
    modifies resultBuilder
    ensures resultBuilder.contents == old(resultBuilder.contents) + PaddedText(digits, decimalPoint, digitsAfterPoint)
  {
    hide Zeros;
    ghost var start := resultBuilder.contents;
    resultBuilder.AddCharacter('0');
    if digitsAfterPoint > 0 {
      resultBuilder.AddCharacter('.');
      PaddingIsZeros(-decimalPoint);
      resultBuilder.AddPadding('0', -decimalPoint);
      resultBuilder.AddSubstring(digits);
      var remainingDigits := digitsAfterPoint - (-decimalPoint) - |digits|;
      PaddingIsZeros(remainingDigits);
      resultBuilder.AddPadding('0', remainingDigits);
      assert resultBuilder.contents == start + ("0" + "." + Zeros(-decimalPoint) + digits + Zeros(remainingDigits));
    }
  }

  method AddPadded(digits: seq<char>, decimalPoint: int, digitsAfterPoint: nat, resultBuilder: StringBuilder)
    requires decimalPoint > 0 && decimalPoint >= |digits| && Fits(digits, decimalPoint, digitsAfterPoint)
    modifies resultBuilder
    ensures resultBuilder.contents == old(resultBuilder.contents) + PaddedText(digits, decimalPoint, digitsAfterPoint)
  {
    resultBuilder.AddSubstring(digits);
    resultBuilder.AddPadding('0', decimalPoint - |digits|);
    if digitsAfterPoint > 0 {
      resultBuilder.AddCharacter('.');
      resultBuilder.AddPadding('0', digitsAfterPoint);
    }
  }

  method AddSplit(digits: seq<char>, decimalPoint: int, digitsAfterPoint: nat, resultBuilder: StringBuilder)
    requires 0 < decimalPoint < |digits| && Fits(digits, decimalPoint, digitsAfterPoint)
    modifies resultBuilder
    ensures resultBuilder.contents == old(resultBuilder.contents) + PaddedText(digits, decimalPoint, digitsAfterPoint)
  {
    resultBuilder.AddSubstring(digits[..decimalPoint]);
    resultBuilder.AddCharacter('.');
    resultBuilder.AddSubstring(digits[decimalPoint..]);
    var remainingDigits := digitsAfterPoint - (|digits| - decimalPoint);
    resultBuilder.AddPadding('0', remainingDigits);
  }

  lemma {:induction false} OptionsAppended(style: Style, digits: seq<char>, decimalPoint: int, digitsAfterPoint: nat)
    requires Fits(digits, decimalPoint, digitsAfterPoint)
    ensures DecimalText(style, digits, decimalPoint, digitsAfterPoint) == PaddedText(digits, decimalPoint,
        digitsAfterPoint)
              + (if digitsAfterPoint == 0 && style.emitTrailingDecimalPoint then "." else "")
              + (if digitsAfterPoint == 0 && style.emitTrailingZeroAfterPoint then "0" else "")
    ensures |DecimalText(style, digits, decimalPoint, digitsAfterPoint)| <= |digits| + Max(decimalPoint,
        0) + digitsAfterPoint + 3
  {
  }

  /** Appends the digits with a point and padding. Reading the text gives the same number, except that a number below
      one loses its digits if no place behind the point is asked for. */
  method CreateDecimalRepresentation(digits: seq<char>, decimalPoint: int, digitsAfterPoint: nat, style: Style,
                                     resultBuilder: StringBuilder)
    returns (ghost text: seq<char>)
    requires AllDigits(digits) && style.Valid() && Fits(digits, decimalPoint, digitsAfterPoint)
    modifies resultBuilder
    ensures resultBuilder.contents == old(resultBuilder.contents) + text
    ensures Denotes(text, if decimalPoint <= 0 && digitsAfterPoint == 0 then 0.0
                    else Decimal(DecimalValue(digits), decimalPoint - |digits|))
    ensures |text| <= |digits| + Max(decimalPoint, 0) + digitsAfterPoint + 3
    ensures Leads(digits, decimalPoint) ==> IsPlain(style, text, digitsAfterPoint)
  {
    hide DecimalValue, Decimal, Denotes, PaddedText, DecimalText, Fits, IsPlain, Leads;
    if decimalPoint <= 0 {
      AddBelowOne(digits, decimalPoint, digitsAfterPoint, resultBuilder);
    } else if decimalPoint >= |digits| {
      AddPadded(digits, decimalPoint, digitsAfterPoint, resultBuilder);
    } else {
      AddSplit(digits, decimalPoint, digitsAfterPoint, resultBuilder);
    }
    if digitsAfterPoint == 0 {
      if style.emitTrailingDecimalPoint {
        resultBuilder.AddCharacter('.');
      }
      if style.emitTrailingZeroAfterPoint {
        resultBuilder.AddCharacter('0');
      }
    }
    text := DecimalText(style, digits, decimalPoint, digitsAfterPoint);
    OptionsAppended(style, digits, decimalPoint, digitsAfterPoint);
    DecimalDenotes(style, digits, decimalPoint, digitsAfterPoint);
    if Leads(digits, decimalPoint) { DecimalIsPlain(style, digits, decimalPoint, digitsAfterPoint); }
  }

  // ---- Printing doubles ----

  lemma {:induction false} ShortestExponent(v: Double, digits: seq<char>, point: int)
    requires 0 < v.d64 && v.Finite() && AllDigits(digits) && IsDtoa(v, ShortestMode, 0, digits, point)
    ensures -324 < point <= 309 && 0 < |digits| <= 17 && RoundsTo(Decimal(DecimalValue(digits), point - |digits|), v)
    ensures digits[0] != '0'
  {
    hide Decimal, RoundsTo, ClosestDecimal, Pow, DecimalValue;
    LeadingNotZero(digits);
    if point - 1 >= 309 {
      StringToDouble.HugeIsInfinity(digits, point - |digits|);
      RoundsToUnique(Decimal(DecimalValue(digits), point - |digits|), v, Double(INFINITY));
    }
    if point <= -324 {
      StringToDouble.SmallIsZero(digits, point - |digits|);
      RoundsToUnique(Decimal(DecimalValue(digits), point - |digits|), v, Double(0));
    }
  }

  lemma {:induction false} LeadingNotZero(s: seq<char>)
    requires AllDigits(s) && (|s| > 0 ==> Pow(10, |s| - 1) <= DecimalValue(s))
    ensures |s| > 0 ==> s[0] != '0'
  {
    hide Pow;
    if |s| > 0 && s[0] == '0' {
      assert s == Zeros(1) + s[1..];
      ZerosInFront(1, s[1..]);
      DecimalBound(s[1..]);
    }
  }

  lemma {:induction false} ZeroRounds(e: int)
    ensures AllDigits("0") && DecimalValue("0") == 0 && RoundsTo(Decimal(0, e), Double(0)) && Decimal(0, e) == 0.0
  {
    hide RoundsTo;
    SingleZero();
    StringToDouble.EmptyIsZero(e);
    ZeroDecimal(e);
  }

  /** The sign that is printed. */
  function SignText(value: Double, style: Style): seq<char> {
    if value.Sign() < 0 && (Magnitude(value).d64 != 0 || !style.uniqueZero) then "-" else ""
  }

  /** The shortest digits of a number that is not negative, with their point. */
  ghost predicate ShortestDigits(v: Double, digits: seq<char>, point: int) {
    if v.d64 == 0 then digits == "0" && point == 1 else AllDigits(digits) && IsDtoa(v, ShortestMode, 0, digits, point)
  }

  /** The text of these digits: with a point and no more places than they need while the exponent is within the bounds
      of the style, and with an exponent otherwise. */
  ghost predicate IsTextOf(style: Style, digits: seq<char>, point: int, text: seq<char>)
    requires AllDigits(digits) && |digits| > 0
  {
    && Denotes(text, Decimal(DecimalValue(digits), point - |digits|))
    && if style.decimalInShortestLow <= point - 1 < style.decimalInShortestHigh
       then IsPlain(style, text, Max(0, |digits| - point))
       else IsScientific(style, text, |digits| - 1, point - 1)
  }

  ghost predicate IsShortestText(style: Style, v: Double, text: seq<char>) {
    exists digits, point ::
      ShortestDigits(v, digits, point) && AllDigits(digits) && |digits| > 0 && IsTextOf(style, digits, point, text)
  }

  /** Each number has one shortest text in a style. */
  lemma {:induction false} ShortestTextUnique(style: Style, v: Double, s: seq<char>, t: seq<char>)
    requires style.Valid() && IsShortestText(style, v, s) && IsShortestText(style, v, t)
    ensures s == t
  {
    hide DecimalValue, Decimal, Denotes, IsDtoa, IsPlain, IsScientific, Style.Valid;
    var d, p :| ShortestDigits(v, d, p) && AllDigits(d) && |d| > 0 && IsTextOf(style, d, p, s);
    var e, q :| ShortestDigits(v, e, q) && AllDigits(e) && |e| > 0 && IsTextOf(style, e, q, t);
    if v.d64 != 0 { ShortestDigitsUnique(v, d, p, e, q, 0); }
    var x := Decimal(DecimalValue(d), p - |d|);
    if style.decimalInShortestLow <= p - 1 < style.decimalInShortestHigh {
      PlainDetermined(style, s, t, Max(0, |d| - p), x);
    } else {
      ScientificDetermined(style, s, t, |d| - 1, p - 1, x);
    }
  }

  /** The shortest text, which rounds to the number. */
  method ToShortestIeeeNumber(value: Double, style: Style, product: real, table: seq<DiyFp>, index: nat,
                              resultBuilder: StringBuilder)
    returns (ghost text: seq<char>, ghost x: real)
    requires !value.IsSpecial() && style.Valid() && AccurateTable(table)
    requires Magnitude(value).d64 > 0 ==>
                ProductFor(Magnitude(value), product) && InTargetRange(Magnitude(value), table, index)
    modifies resultBuilder
    ensures resultBuilder.contents == old(resultBuilder.contents) + SignText(value, style) + text
    ensures IsShortestText(style, Magnitude(value), text)
    ensures Denotes(text, x) && RoundsTo(x, Magnitude(value)) && |text| <= 1000
  {
    hide DecimalValue, Decimal, Denotes, RoundsTo, AccurateTable, ProductFor, InTargetRange, IsShortestDecimal, IsDtoa,
         IsPlain, IsScientific;
    var decimalRep := new char[18];
    var sign, length, decimalPoint := DoubleToAscii(value, ShortestMode, 0, product, table, index, decimalRep);
    var digits := decimalRep[..length];
    ShortestResult(value, digits, decimalPoint);
    if sign && (Magnitude(value).d64 != 0 || !style.uniqueZero) {
      resultBuilder.AddCharacter('-');
    }
    var exponent := decimalPoint - 1;
    x := Decimal(DecimalValue(digits), decimalPoint - |digits|);
    if style.decimalInShortestLow <= exponent < style.decimalInShortestHigh {
      text := CreateDecimalRepresentation(digits, decimalPoint, Max(0, length - decimalPoint), style, resultBuilder);
    } else {
      text := CreateExponentialRepresentation(digits, exponent, style, resultBuilder);
    }
    assert ShortestDigits(Magnitude(value), digits, decimalPoint) && IsTextOf(style, digits, decimalPoint, text);
  }

  lemma {:induction false} ShortestResult(value: Double, digits: seq<char>, point: int)
    requires !value.IsSpecial() && AllDigits(digits)
    requires Magnitude(value).d64 == 0 ==> digits == "0" && point == 1
    requires Magnitude(value).d64 > 0 ==> IsDtoa(Magnitude(value), ShortestMode, 0, digits, point)
    ensures 0 < |digits| <= 17 && -324 < point <= 309 && Leads(digits, point) &&
            RoundsTo(Decimal(DecimalValue(digits), point - |digits|), Magnitude(value))
  {
    hide DecimalValue, Decimal, RoundsTo, IsShortestDecimal, IsDtoa;
    MagnitudeIsFinite(value);
    if Magnitude(value).d64 == 0 { ZeroRounds(point - 1); } else { ShortestExponent(Magnitude(value), digits, point); }
  }

  // ---- A fixed number of places ----

  const MAX_FIXED_DIGITS_BEFORE_POINT := 60
  const MAX_FIXED_DIGITS_AFTER_POINT := 60

  /** The double nearest to 10^60; it lies below it, and the next one above. */
  const FIRST_NON_FIXED: uint64 := 0x4C63_E9E4_E4C2_F344

  lemma {:induction false} FirstNonFixed()
    ensures RoundsTo(Exp(10, 60), Double(FIRST_NON_FIXED))
    ensures Double(FIRST_NON_FIXED).Value() <= Exp(10, 60) < Double(FIRST_NON_FIXED + 1).Value()
  {
    hide Pow, Exp;
    ExpNat(10, 60);
    ExpNat(2, 147);
    ExpNat(2, 146);
    TenTo60();
    TwoTo147();
    TwoTo146();
  }

  lemma {:induction false} TenTo60()
    ensures Pow(10, 60) == 1000000000000000000000000000000000000000000000000000000000000
  {
    hide Pow;
    TenToFour();
    PowAdd(10, 4, 4);
    PowAdd(10, 8, 4);
    PowAdd(10, 12, 12);
    PowAdd(10, 24, 24);
    PowAdd(10, 48, 12);
  }

  lemma {:induction false} TwoTo147()
    ensures Pow(2, 147) == 178405961588244985132285746181186892047843328
  {
    hide Pow;
    FastFixedPrinter.TwoToSmall();
    PowAdd(2, 8, 8);
    PowAdd(2, 16, 16);
    PowAdd(2, 32, 32);
    PowAdd(2, 64, 64);
    PowAdd(2, 128, 16);
    PowAdd(2, 144, 3);
  }

  lemma {:induction false} TwoTo146()
    ensures Pow(2, 147) == 2 * Pow(2, 146)
  {
  }

  lemma {:induction false} RoomForFixed(v: Double, requestedDigits: nat)
    requires v.d64 < FIRST_NON_FIXED && requestedDigits <= MAX_FIXED_DIGITS_AFTER_POINT
    ensures DigitRoom(v, FixedMode, requestedDigits, 121)
  {
    hide Exp, Pow, Double.Value;
    FirstNonFixed();
    ValueMono(v, Double(FIRST_NON_FIXED));
    forall q | Exp(10, q) <= v.Value()
      ensures q + 1 + requestedDigits < 121
    {
      if q >= 60 { if q > 60 { ExpMono(10, 60, q); } }
    }
    forall n: nat | Pow(10, n) as real <= v.Value()
      ensures n + 1 + requestedDigits < 121
    {
      ExpNat(10, n);
      if n >= 60 { if n > 60 { ExpMono(10, 60, n); } }
    }
  }

  /** The text with so many places behind the point; what it denotes is the number, rounded half up at that place. */
  method ToFixed(value: Double, requestedDigits: nat, style: Style, product: real, table: seq<DiyFp>, index: nat,
                 resultBuilder: StringBuilder)
    returns (ok: bool, ghost text: seq<char>)
    requires !value.IsSpecial() && style.Valid() && AccurateTable(table)
    requires Magnitude(value).d64 > 0 ==>
                ProductFor(Magnitude(value), product) && InTargetRange(Magnitude(value), table, index)
    modifies resultBuilder
    ensures ok <==> requestedDigits <= MAX_FIXED_DIGITS_AFTER_POINT && Magnitude(value).d64 < FIRST_NON_FIXED
    ensures !ok ==> resultBuilder.contents == old(resultBuilder.contents)
    ensures ok ==> resultBuilder.contents == old(resultBuilder.contents) + SignText(value, style) + text
    ensures ok ==> Denotes(text, RoundedAt(Magnitude(value).Value(), requestedDigits))
    ensures ok ==> IsPlain(style, text, requestedDigits)
  {
    hide DecimalValue, Decimal, Denotes, AccurateTable, ProductFor, InTargetRange, IsDtoa, RoundedAt, Double.Value,
         DigitRoom, IsPlain;
    text := [];
    if requestedDigits > MAX_FIXED_DIGITS_AFTER_POINT {
      return false, text;
    }
    if Magnitude(value).d64 >= FIRST_NON_FIXED {
      return false, text;
    }
    RoomForFixed(Magnitude(value), requestedDigits);
    var decimalRep := new char[MAX_FIXED_DIGITS_BEFORE_POINT + MAX_FIXED_DIGITS_AFTER_POINT + 1];
    var sign, length, decimalPoint := DoubleToAscii(value, FixedMode, requestedDigits, product, table, index,
                                                    decimalRep);
    var digits := decimalRep[..length];
    FixedResult(value, digits, decimalPoint, requestedDigits);
    if sign && (Magnitude(value).d64 != 0 || !style.uniqueZero) {
      resultBuilder.AddCharacter('-');
    }
    text := CreateDecimalRepresentation(digits, decimalPoint, requestedDigits, style, resultBuilder);
    ok := true;
  }

  lemma {:induction false} FixedResult(value: Double, digits: seq<char>, point: int, requestedDigits: nat)
    requires !value.IsSpecial() && AllDigits(digits)
    requires Magnitude(value).d64 == 0 ==> digits == "0" && point == 1
    requires Magnitude(value).d64 > 0 ==> IsDtoa(Magnitude(value), FixedMode, requestedDigits, digits, point)
    ensures Fits(digits, point, requestedDigits) && Leads(digits, point)
    ensures RoundedAt(Magnitude(value).Value(), requestedDigits)
         == if point <= 0 && requestedDigits == 0 then 0.0 else Decimal(DecimalValue(digits), point - |digits|)
  {
    hide DecimalValue, Decimal, RoundedAt, Exp, Double.Value, Pow;
    if Magnitude(value).d64 > 0 { LeadingNotZero(digits); }
    if Magnitude(value).d64 == 0 {
      ZeroRounds(0);
      ZeroValue();
      WholeRounded(Magnitude(value).Value(), 0, requestedDigits);
    } else if |digits| == 0 {
      DecimalEmpty(digits);
      ZeroDecimal(point);
    }
  }

  lemma {:induction false} ZeroValue()
    ensures Double(0).Value() == 0.0
  {
    hide Exp;
  }
}
