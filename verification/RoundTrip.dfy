/** Printing a double and reading the digits, or the whole text, again gives the same double, bit for bit. */
module RoundTrip {
  import opened Wrappers
  import opened Arith
  import opened Decimals
  import opened Ieee
  import opened DecimalRounding
  import opened Dtoa
  import opened FastStrtod
  import opened FastPrinter
  import opened StringToDouble
  import opened DoubleToDigits
  import opened NumberText
  import opened TextLayout
  import opened TextPrinting
  import opened TextReading

  /** Any correctly rounding parser reads a shortest decimal back. */
  lemma {:induction false} ShortestIsReadBack(v: Double, c: nat, n: nat, point: int, parsed: Double)
    requires IsShortestDecimal(v, c, n, point) && RoundsTo(Decimal(c, point - n), parsed)
    ensures parsed == v
  {
    hide RoundsTo, Decimal, ClosestDecimal, Pow;
    RoundsToUnique(Decimal(c, point - n), v, parsed);
  }

  /** The exact printer followed by the parser. */
  method PrintAndParse(v: Double, product: real, table: seq<DiyFp>, hardware: (seq<char>, int) -> Hardware)
    returns (digits: seq<char>, exponent: int, parsed: Double)
    requires 0 < v.d64 && v.Finite() && ProductFor(v, product) && AccurateTable(table) && SoundHardware(hardware)
    ensures parsed == v
    ensures AllDigits(digits) && 0 < |digits| <= 17 &&
            IsShortestDecimal(v, DecimalValue(digits), |digits|, exponent + |digits|)
  {
    hide RoundsTo, Decimal, DecimalValue, IsShortestDecimal, ProductFor, AccurateTable, Pow;
    var buffer := new char[18];
    var length, decimalPoint := BignumDtoa(v, ShortestMode, 0, product, buffer);
    digits := buffer[..length];
    exponent := decimalPoint - length;
    parsed := Strtod(digits, exponent, hardware(digits, exponent), table);
    ShortestIsReadBack(v, DecimalValue(digits), length, decimalPoint, parsed);
    NotEmpty(v, DecimalValue(digits), length, decimalPoint);
  }

  lemma {:induction false} NotEmpty(v: Double, c: nat, n: nat, point: int)
    requires IsShortestDecimal(v, c, n, point)
    ensures n > 0
  {
    hide RoundsTo, Decimal, ClosestDecimal, Pow;
  }

  /** A minus sign in front makes the number negative and changes nothing else. */
  lemma {:induction false} NegatedText(text: seq<char>, x: real)
    requires Denotes(text, x)
    ensures ParseNumeral("-" + text).Some? &&
            ParseNumeral("-" + text).value == ParseNumeral(text).value.(negative := true)
  {
    hide DecimalValue, Decimal, ParseNumeral, IsExponentText;
    ParsedIsSpelled(text);
    var n := ParseNumeral(text).value;
    var sign, point, exponent :| Spells(text, n, sign, point, exponent);
    NoSign(text, n, sign, point, exponent);
    var m := n.(negative := true);
    assert "-" + text == "-" + m.whole + point + m.fraction + exponent;
    SpelledIsParsed("-" + text, m, "-", point, exponent);
  }

  lemma {:induction false} NoSign(text: seq<char>, n: Numeral, sign: seq<char>, point: seq<char>, exponent: seq<char>)
    requires Spells(text, n, sign, point, exponent) && !n.negative && |text| > 0 && !IsSign(text[0])
    ensures sign == "" && text == n.whole + point + n.fraction + exponent
  {
    hide DecimalValue, IsExponentText;
    assert text == sign + (n.whole + point + n.fraction + exponent);
  }

  lemma {:induction false} ReadBack(value: Double, sign: seq<char>, text: seq<char>, x: real, r: Reading)
    requires !value.IsSpecial() && (sign == "" || sign == "-") && Denotes(text, x) && RoundsTo(x, Magnitude(value)) &&
             IsReading(sign + text, r)
    ensures r == Number(sign == "-", Magnitude(value))
  {
    hide DecimalValue, Decimal, ParseNumeral, RoundsTo;
    if sign == "" { assert sign + text == text; } else { NegatedText(text, x); }
    RoundsToUnique(x, Magnitude(value), r.magnitude);
  }

  /** Any finite double is printed as its one shortest text, which is read as that double: the same bits and the same
      sign, unless the option to print no minus before zero was set. */
  method PrintAndRead(value: Double, style: Style, product: real, table: seq<DiyFp>, index: nat,
                      hardware: (seq<char>, int) -> Hardware)
    returns (text: seq<char>, r: Reading)
    requires !value.IsSpecial() && style.Valid() && AccurateTable(table) && SoundHardware(hardware)
    requires Magnitude(value).d64 > 0 ==>
                ProductFor(Magnitude(value), product) && InTargetRange(Magnitude(value), table, index)
    ensures r == Number(value.Sign() < 0 && (Magnitude(value).d64 != 0 || !style.uniqueZero), Magnitude(value))
    ensures exists unsigned ::
              text == SignText(value, style) + unsigned && IsShortestText(style, Magnitude(value), unsigned)
  {
    hide DecimalValue, Decimal, Denotes, RoundsTo, AccurateTable, ProductFor, InTargetRange, IsReading, SoundHardware,
         IsShortestText;
    var builder := new StringBuilder();
    ghost var unsigned, x;
    unsigned, x := ToShortestIeeeNumber(value, style, product, table, index, builder);
    text := builder.contents;
    assert text == SignText(value, style) + unsigned;
    r := StringToIeee(text, hardware, table);
    ReadBack(value, SignText(value, style), unsigned, x, r);
  }
}
