/** What a printed number looks like, character by character, and that the look and the number determine the text. */
module TextLayout {
  import opened Wrappers
  import opened Arith
  import opened Decimals
  import opened DecimalRounding
  import opened NumberText

  /** The options of the printer that change the text of a number. */
  datatype Style = Style(emitPositiveExponentSign: bool, emitTrailingDecimalPoint: bool,
                         emitTrailingZeroAfterPoint: bool, uniqueZero: bool,
                         exponentCharacter: char, decimalInShortestLow: int, decimalInShortestHigh: int) {

    /** What the constructor asks for, and an exponent mark that can be read again. */
    predicate Valid() {
      (emitTrailingZeroAfterPoint ==> emitTrailingDecimalPoint) && IsExponentMark(exponentCharacter)
    }
  }

  /** The text is read as a number without sign, of this magnitude. */
  ghost predicate Denotes(text: seq<char>, x: real) {
    && ParseNumeral(text).Some? && ParseNumeral(text).value.Valid() && !ParseNumeral(text).value.negative
    && ParseNumeral(text).value.Magnitude() == x && |text| > 0 && !IsSign(text[0])
  }

  lemma {:induction false} SpelledDenotes(text: seq<char>, n: Numeral, point: seq<char>, exponent: seq<char>, x: real)
    requires Spells(text, n, "", point, exponent) && !n.negative && n.Magnitude() == x
    ensures Denotes(text, x)
  {
    hide DecimalValue, Decimal, IsExponentText, ParseNumeral, Pow;
    SpelledIsParsed(text, n, "", point, exponent);
    FirstOfNumber(n, point, exponent);
    assert text == n.whole + point + n.fraction + exponent;
  }

  lemma {:induction false} DenotesOnce(text: seq<char>, n: Numeral, point: seq<char>, exponent: seq<char>, x: real)
    requires Spells(text, n, "", point, exponent) && Denotes(text, x)
    ensures n.Magnitude() == x
  {
    hide DecimalValue, Decimal, IsExponentText, ParseNumeral, Pow;
    SpelledIsParsed(text, n, "", point, exponent);
  }

  // ---- Digits with a point ----

  /** A whole number as one writes it: some digits, no zero in front of others. */
  ghost predicate IsWhole(s: seq<char>) {
    AllDigits(s) && |s| > 0 && (|s| > 1 ==> s[0] != '0')
  }

  /** So many places behind a point. Without places there is no point, unless the options ask for one, and for a zero
      behind it. */
  ghost predicate IsPlain(style: Style, text: seq<char>, places: nat) {
    exists whole, fraction :: PlainParts(style, text, places, whole, fraction)
  }

  ghost predicate PlainParts(style: Style, text: seq<char>, places: nat, whole: seq<char>, fraction: seq<char>) {
    && IsWhole(whole) && AllDigits(fraction)
    && text == whole + (if places > 0 || style.emitTrailingDecimalPoint then "." else "") + fraction
    && if places > 0 then |fraction| == places
       else fraction == if style.emitTrailingZeroAfterPoint then "0" else ""
  }

  // ---- Digits with an exponent ----

  function SignOfExponent(style: Style, exponent: int): seq<char> {
    if exponent < 0 then "-" else if style.emitPositiveExponentSign then "+" else ""
  }

  /** One digit, so many places behind a point, none without places, and the exponent. */
  ghost predicate IsScientific(style: Style, text: seq<char>, places: nat, exponent: int) {
    exists first, fraction, digits :: ScientificParts(style, text, places, exponent, first, fraction, digits)
  }

  ghost predicate ScientificParts(style: Style, text: seq<char>, places: nat, exponent: int, first: char,
                                  fraction: seq<char>, digits: seq<char>) {
    && IsDigit(first) && AllDigits(fraction) && |fraction| == places
    && IsWhole(digits) && DecimalValue(digits) == (if exponent < 0 then -exponent else exponent)
    && text == [first] + (if places > 0 then "." else "") + fraction
               + ([style.exponentCharacter] + SignOfExponent(style, exponent) + digits)
  }

  // ---- A layout has one text for each number ----

  /** A whole number is written in one way only. */
  lemma {:induction false} WholeDetermined(s: seq<char>, t: seq<char>)
    requires IsWhole(s) && IsWhole(t) && DecimalValue(s) == DecimalValue(t)
    ensures s == t
  {
    hide DecimalValue, Pow;
    if |s| < |t| { Longer(s, t); }
    if |t| < |s| { Longer(t, s); }
    DigitsDetermined(s, t);
  }

  lemma {:induction false} Longer(s: seq<char>, t: seq<char>)
    requires IsWhole(s) && IsWhole(t) && |s| < |t|
    ensures DecimalValue(s) < DecimalValue(t)
  {
    hide DecimalValue;
    DecimalBound(s);
    FirstDigitCounts(t);
    if |s| < |t| - 1 { PowMono(10, |s|, |t| - 1); }
  }

  lemma {:induction false} FirstDigitCounts(s: seq<char>)
    requires AllDigits(s) && |s| > 0 && s[0] != '0'
    ensures Pow(10, |s| - 1) <= DecimalValue(s)
  {
    hide DecimalValue, Pow;
    DecimalConcat(s[..1], s[1..]);
    assert s == s[..1] + s[1..];
    SingleDigit(s[..1]);
    MulMono(1, DecimalValue(s[..1]), Pow(10, |s| - 1));
  }

  lemma {:induction false} SingleDigit(s: seq<char>)
    requires AllDigits(s) && |s| == 1
    ensures DecimalValue(s) == s[0] as int - '0' as int
  {
    assert s[..0] == [];
  }

  /** Two texts with the same places that denote the same number are equal. */
  lemma {:induction false} PlainDetermined(style: Style, s: seq<char>, t: seq<char>, places: nat, x: real)
    requires IsPlain(style, s, places) && IsPlain(style, t, places) && Denotes(s, x) && Denotes(t, x) && style.Valid()
    ensures s == t
  {
    hide DecimalValue, Decimal, Denotes, PlainParts, Pow, IsWhole;
    var a, f :| PlainParts(style, s, places, a, f);
    var b, g :| PlainParts(style, t, places, b, g);
    PlainNumber(style, s, places, a, f, x);
    PlainNumber(style, t, places, b, g, x);
    PlainSame(style, s, t, places, a, f, b, g);
  }

  lemma {:induction false} PlainNumber(style: Style, text: seq<char>, places: nat, whole: seq<char>,
                                       fraction: seq<char>,
                                       x: real)
    requires PlainParts(style, text, places, whole, fraction) && Denotes(text, x) && style.Valid()
    ensures AllDigits(whole + fraction) && Decimal(DecimalValue(whole + fraction), 0 - |fraction|) == x
  {
    hide DecimalValue, Decimal, Denotes, Pow;
    var n := Numeral(false, whole, fraction, 0);
    var point := if places > 0 || style.emitTrailingDecimalPoint then "." else "";
    assert text == "" + n.whole + point + n.fraction + "";
    DenotesOnce(text, n, point, "", x);
  }

  lemma {:induction false} PlainSame(style: Style, s: seq<char>, t: seq<char>, places: nat, a: seq<char>, f: seq<char>,
                                     b: seq<char>, g: seq<char>)
    requires PlainParts(style, s, places, a, f) && PlainParts(style, t, places, b, g)
    requires Decimal(DecimalValue(a + f), 0 - |f|) == Decimal(DecimalValue(b + g), 0 - |g|)
    ensures s == t
  {
    hide DecimalValue, Decimal, Pow;
    DecimalInjective(DecimalValue(a + f), DecimalValue(b + g), 0 - |f|);
    SplitDetermined(a, f, b, g);
  }

  /** Digits in front of equally many others are determined with them. */
  lemma {:induction false} SplitDetermined(a: seq<char>, f: seq<char>, b: seq<char>, g: seq<char>)
    requires IsWhole(a) && IsWhole(b) && AllDigits(f) && AllDigits(g) && |f| == |g|
    requires DecimalValue(a + f) == DecimalValue(b + g)
    ensures a == b && f == g
  {
    hide DecimalValue, Pow;
    DecimalConcat(a, f);
    DecimalConcat(b, g);
    DecimalBound(f);
    DecimalBound(g);
    QuotientDetermined(DecimalValue(a), DecimalValue(f), DecimalValue(b), DecimalValue(g), Pow(10, |f|));
    WholeDetermined(a, b);
    DigitsDetermined(f, g);
  }

  lemma {:induction false} QuotientDetermined(q: nat, r: nat, o: nat, s: nat, p: nat)
    requires r < p && s < p && q * p + r == o * p + s
    ensures q == o && r == s
  {
    if q < o { MulMono(q + 1, o, p); }
    if o < q { MulMono(o + 1, q, p); }
  }

  /** Two texts with the same exponent and places that denote the same number are equal. */
  lemma {:induction false} ScientificDetermined(style: Style, s: seq<char>, t: seq<char>, places: nat, exponent: int,
                                                x: real)
    requires IsScientific(style, s, places, exponent) && IsScientific(style, t, places, exponent)
    requires Denotes(s, x) && Denotes(t, x) && style.Valid()
    ensures s == t
  {
    hide DecimalValue, Decimal, Denotes, ScientificParts, Pow;
    var a, f, d :| ScientificParts(style, s, places, exponent, a, f, d);
    var b, g, e :| ScientificParts(style, t, places, exponent, b, g, e);
    ScientificNumber(style, s, places, exponent, a, f, d, x);
    ScientificNumber(style, t, places, exponent, b, g, e, x);
    ScientificSame(style, s, t, places, exponent, a, f, d, b, g, e);
  }

  lemma {:induction false} ScientificNumber(style: Style, text: seq<char>, places: nat, exponent: int, first: char,
                                            fraction: seq<char>, digits: seq<char>, x: real)
    requires ScientificParts(style, text, places, exponent, first, fraction, digits) && Denotes(text, x) &&
             style.Valid()
    ensures AllDigits([first] + fraction) && Decimal(DecimalValue([first] + fraction), exponent - |fraction|) == x
  {
    hide DecimalValue, Decimal, Denotes, Pow;
    var n := Numeral(false, [first], fraction, exponent);
    var point := if places > 0 then "." else "";
    var mark := [style.exponentCharacter] + SignOfExponent(style, exponent) + digits;
    assert ExponentPieces(mark, style.exponentCharacter, SignOfExponent(style, exponent), exponent < 0, digits,
                          exponent);
    assert text == "" + n.whole + point + n.fraction + mark;
    DenotesOnce(text, n, point, mark, x);
  }

  lemma {:induction false} ScientificSame(style: Style, s: seq<char>, t: seq<char>, places: nat, exponent: int,
                                          a: char, f: seq<char>, d: seq<char>, b: char, g: seq<char>, e: seq<char>)
    requires ScientificParts(style, s, places, exponent, a, f, d) &&
             ScientificParts(style, t, places, exponent, b, g, e)
    requires AllDigits([a] + f) && AllDigits([b] + g)
    requires Decimal(DecimalValue([a] + f), exponent - |f|) == Decimal(DecimalValue([b] + g), exponent - |g|)
    ensures s == t
  {
    hide DecimalValue, Decimal, Pow;
    DecimalInjective(DecimalValue([a] + f), DecimalValue([b] + g), exponent - |f|);
    DigitsDetermined([a] + f, [b] + g);
    assert ([a] + f)[0] == ([b] + g)[0] && ([a] + f)[1..] == f && ([b] + g)[1..] == g;
    WholeDetermined(d, e);
  }
}
