/** Decimal numbers as text: what is one, and which number it denotes. */
module NumberText {
  import opened Wrappers
  import opened Arith
  import opened Decimals
  import opened DecimalRounding

  /** The parts of a decimal text. */
  datatype Numeral = Numeral(negative: bool, whole: seq<char>, fraction: seq<char>, exponent: int) {

    ghost predicate Valid() {
      AllDigits(whole) && AllDigits(fraction)
    }

    /** The number without its sign. */
    ghost function Magnitude(): real
      requires Valid()
    {
      Decimal(DecimalValue(whole + fraction), exponent - |fraction|)
    }
  }

  predicate IsDigit(c: char) {
    '0' <= c <= '9'
  }

  predicate IsSign(c: char) {
    c == '+' || c == '-'
  }

  predicate IsExponentMark(c: char) {
    c == 'e' || c == 'E'
  }

  function CharAt(text: seq<char>, i: nat): char {
    if i < |text| then text[i] else '\0'
  }

  /** The end of the digits that start at i. */
  function DigitsEnd(text: seq<char>, i: nat): (r: nat)
    requires i <= |text|
    ensures i <= r <= |text| && AllDigits(text[i..r]) && !IsDigit(CharAt(text, r))
    decreases |text| - i
  {
    if i < |text| && IsDigit(text[i]) then
      var r := DigitsEnd(text, i + 1);
      assert text[i..r] == [text[i]] + text[i + 1..r];
      r
    else i
  }

  function SignEnd(text: seq<char>): (r: nat)
    ensures r <= |text| && r <= 1
  {
    if IsSign(CharAt(text, 0)) then 1 else 0
  }

  function WholeEnd(text: seq<char>): (r: nat)
    ensures SignEnd(text) <= r <= |text|
  {
    DigitsEnd(text, SignEnd(text))
  }

  function FractionStart(text: seq<char>): (r: nat)
    ensures WholeEnd(text) <= r <= |text|
  {
    if CharAt(text, WholeEnd(text)) == '.' then WholeEnd(text) + 1 else WholeEnd(text)
  }

  function FractionEnd(text: seq<char>): (r: nat)
    ensures FractionStart(text) <= r <= |text|
  {
    if CharAt(text, WholeEnd(text)) == '.' then DigitsEnd(text, FractionStart(text)) else FractionStart(text)
  }

  /** The exponent from d on; none if the text goes on in any other way. */
  function ExponentFrom(text: seq<char>, d: nat): Option<int>
    requires d <= |text|
  {
    if d == |text| then Some(0)
    else if !IsExponentMark(text[d]) then None
    else
      var t := if IsSign(CharAt(text, d + 1)) then d + 2 else d + 1;
      if t < |text| && IsDigit(text[t]) && DigitsEnd(text, t) == |text| then
        Some(if CharAt(text, d + 1) == '-' then 0 - DecimalValue(text[t..]) else DecimalValue(text[t..]))
      else None
  }

  /** The only way to read a text as a number, if there is one. */
  function ParseNumeral(text: seq<char>): Option<Numeral> {
    var whole, fraction := text[SignEnd(text)..WholeEnd(text)], text[FractionStart(text)..FractionEnd(text)];
    if |whole| + |fraction| == 0 then None
    else match ExponentFrom(text, FractionEnd(text))
      case None => None
      case Some(exponent) => Some(Numeral(CharAt(text, 0) == '-', whole, fraction, exponent))
  }

  // ---- The grammar ----

  predicate IsSignText(s: seq<char>, negative: bool) {
    s == (if negative then "-" else "") || (s == "+" && !negative)
  }

  ghost predicate IsExponentText(s: seq<char>, exponent: int) {
    || (s == "" && exponent == 0)
    || exists mark, sign, negative, digits :: ExponentPieces(s, mark, sign, negative, digits, exponent)
  }

  ghost predicate ExponentPieces(s: seq<char>, mark: char, sign: seq<char>, negative: bool, digits: seq<char>,
                                 exponent: int) {
    && s == [mark] + sign + digits && IsExponentMark(mark) && IsSignText(sign, negative) && AllDigits(digits) &&
        |digits| > 0
    && exponent == if negative then 0 - DecimalValue(digits) else DecimalValue(digits)
  }

  /** A text spells a number: sign, whole part, fraction behind a point, exponent, with at least one digit before the
      exponent. */
  ghost predicate Spells(text: seq<char>, n: Numeral, sign: seq<char>, point: seq<char>, exponent: seq<char>) {
    && n.Valid() && |n.whole| + |n.fraction| > 0
    && text == sign + n.whole + point + n.fraction + exponent
    && IsSignText(sign, n.negative) && (point == "." || (point == "" && n.fraction == "")) &&
        IsExponentText(exponent, n.exponent)
  }

  lemma {:induction false} DigitsEndIs(text: seq<char>, i: nat, r: nat)
    requires i <= r <= |text| && AllDigits(text[i..r]) && !IsDigit(CharAt(text, r))
    ensures DigitsEnd(text, i) == r
    decreases r - i
  {
    if i < r {
      assert text[i..r][0] == text[i];
      assert text[i + 1..r] == text[i..r][1..];
      DigitsEndIs(text, i + 1, r);
    }
  }

  lemma {:induction false} ExponentReads(text: seq<char>, d: nat, exponent: int)
    requires d <= |text| && IsExponentText(text[d..], exponent)
    ensures ExponentFrom(text, d) == Some(exponent)
    ensures !IsDigit(CharAt(text, d)) && CharAt(text, d) != '.' && !IsSign(CharAt(text, d))
  {
    hide DecimalValue;
    var s := text[d..];
    if s != "" {
      var mark, sign, negative, digits :| ExponentPieces(s, mark, sign, negative, digits, exponent);
      ExponentPiecesRead(text, d, mark, sign, negative, digits, exponent);
    }
  }

  lemma {:induction false} ExponentPiecesRead(text: seq<char>, d: nat, mark: char, sign: seq<char>, negative: bool,
                                              digits: seq<char>, exponent: int)
    requires d <= |text| && ExponentPieces(text[d..], mark, sign, negative, digits, exponent)
    ensures d < |text| && text[d] == mark && ExponentFrom(text, d) == Some(exponent)
  {
    hide DecimalValue;
    var s := text[d..];
    assert text[d] == s[0] && |text| == d + 1 + |sign| + |digits|;
    var t := d + 1 + |sign|;
    assert text[t..] == s[1 + |sign|..] == digits;
    assert text[t..|text|] == digits;
    assert text[t] == digits[0];
    DigitsEndIs(text, t, |text|);
    if |sign| == 1 { assert text[d + 1] == s[1] == sign[0]; } else { assert text[d + 1] == digits[0]; }
  }

  lemma {:induction false} SpelledSign(text: seq<char>, n: Numeral, sign: seq<char>, point: seq<char>,
                                       exponent: seq<char>)
    requires Spells(text, n, sign, point, exponent)
    ensures SignEnd(text) == |sign| && (CharAt(text, 0) == '-' <==> n.negative)
    ensures var c := |sign| + |n.whole| + |point|;
            && c + |n.fraction| <= |text| && text[|sign|..|sign| + |n.whole|] == n.whole &&
                text[c..c + |n.fraction|] == n.fraction
            && text[c + |n.fraction|..] == exponent && (point == "." ==> text[|sign| + |n.whole|] == '.')
  {
    hide DecimalValue, IsExponentText;
    var rest := n.whole + point + n.fraction + exponent;
    assert text == sign + rest;
    if |sign| == 0 { FirstOfNumber(n, point, exponent); assert text == rest; } else { assert text[0] == sign[0]; }
  }

  lemma {:induction false} FirstOfNumber(n: Numeral, point: seq<char>, exponent: seq<char>)
    requires n.Valid() && |n.whole| + |n.fraction| > 0 && (point == "." || (point == "" && n.fraction == ""))
    ensures var rest := n.whole + point + n.fraction + exponent; |rest| > 0 && !IsSign(rest[0])
  {
    var rest := n.whole + point + n.fraction + exponent;
    if |n.whole| > 0 { assert rest[0] == n.whole[0]; } else { assert rest[0] == '.'; }
  }

  /** Whatever a text spells is what it is read as; so it spells at most one number. */
  lemma {:induction false} SpelledIsParsed(text: seq<char>, n: Numeral, sign: seq<char>, point: seq<char>,
                                           exponent: seq<char>)
    requires Spells(text, n, sign, point, exponent)
    ensures ParseNumeral(text) == Some(n)
  {
    hide DecimalValue, IsExponentText, SignEnd, DigitsEnd;
    SpelledSign(text, n, sign, point, exponent);
    var a, b := |sign|, |sign| + |n.whole|;
    var c := b + |point|;
    var d := c + |n.fraction|;
    ExponentReads(text, d, n.exponent);
    if point == "" {
      assert b == d;
      DigitsEndIs(text, a, b);
    } else {
      DigitsEndIs(text, a, b);
      DigitsEndIs(text, c, d);
    }
    assert WholeEnd(text) == b && FractionStart(text) == c && FractionEnd(text) == d;
  }

  /** And whatever is read from a text is spelled by it. */
  lemma {:induction false} ParsedIsSpelled(text: seq<char>)
    requires ParseNumeral(text).Some?
    ensures exists sign, point, exponent :: Spells(text, ParseNumeral(text).value, sign, point, exponent)
  {
    hide DecimalValue, DigitsEnd, IsExponentText, ExponentFrom;
    var n := ParseNumeral(text).value;
    var a, b, c, d := SignEnd(text), WholeEnd(text), FractionStart(text), FractionEnd(text);
    ParsedDigits(text);
    ExponentSpelled(text, d);
    assert text == text[..a] + text[a..b] + text[b..c] + text[c..d] + text[d..];
    assert Spells(text, n, text[..a], text[b..c], text[d..]);
  }

  lemma {:induction false} ParsedDigits(text: seq<char>)
    ensures AllDigits(text[SignEnd(text)..WholeEnd(text)]) && AllDigits(text[FractionStart(text)..FractionEnd(text)])
  {
    hide DigitsEnd;
  }

  lemma {:induction false} ExponentSpelled(text: seq<char>, d: nat)
    requires d <= |text| && ExponentFrom(text, d).Some?
    ensures IsExponentText(text[d..], ExponentFrom(text, d).value)
  {
    hide DecimalValue, DigitsEnd;
    if d < |text| {
      var t := if IsSign(CharAt(text, d + 1)) then d + 2 else d + 1;
      assert text[t..] == text[t..|text|];
      assert text[d..] == [text[d]] + text[d + 1..t] + text[t..];
      assert ExponentPieces(text[d..], text[d], text[d + 1..t], CharAt(text, d + 1) == '-', text[t..],
                            ExponentFrom(text, d).value);
    }
  }

  lemma {:induction false} ParsedIsValid(text: seq<char>)
    requires ParseNumeral(text).Some?
    ensures ParseNumeral(text).value.Valid()
  {
    hide DecimalValue, DigitsEnd, ExponentFrom;
    ParsedDigits(text);
  }
}
