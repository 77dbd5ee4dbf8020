/** Worked examples of price cleaning, each checked step by step. */
module PriceExamples {
  import opened Results
  import opened Decimals
  import opened Tables
  import opened Cleaning
  import Text

  /** Worked example: "$12,345.67" loses its '$' and ',' and reads as 12345.67. */
  lemma ExampleThousands()
    ensures CleanCell(Str("$12,345.67")) == Ok(Num(Decimal(1234567, 2)))
  {
    RemovesThousands();
    ParsesThousands();
    CleanVia("$12,345.67", "12345.67");
  }

  lemma ParsesThousands()
    ensures ParseSigned("12345.67") == Ok(Decimal(1234567, 2))
  {
    var p := "12345.67";
    ThousandsParts();
    DigitsOfThousands();
    assert !IsSign(p[0]);
  }

  lemma ThousandsParts()
    ensures IsUnsignedNumber("12345.67")
    ensures IntegerPart("12345.67") + FractionPart("12345.67") == "1234567"
    ensures |FractionPart("12345.67")| == 2
  {
    var p := "12345.67";
    assert DotIndex(p) == 5;
    assert IntegerPart(p) == "12345" && FractionPart(p) == "67";
  }

  /** Worked example: "$0" reads as zero. */
  lemma ExampleZero()
    ensures CleanCell(Str("$0")) == Ok(Num(Decimal(0, 0)))
  {
    RemovesZero();
    ParsesZero();
    CleanVia("$0", "0");
  }

  lemma ParsesZero()
    ensures ParseSigned("0") == Ok(Decimal(0, 0))
  {
    assert DotIndex("0") == 1;
    assert IntegerPart("0") == "0" && FractionPart("0") == "";
    assert IntegerPart("0") + FractionPart("0") == "0";
    assert "0"[..0] == "";
  }

  /** Worked example: a price without symbols, "42.50", keeps its value 42.5. */
  lemma ExamplePlain()
    ensures CleanCell(Str("42.50")) == Ok(Num(Decimal(4250, 2)))
  {
    RemovesNothing();
    ParsesPlain();
    CleanVia("42.50", "42.50");
  }

  lemma ParsesPlain()
    ensures ParseSigned("42.50") == Ok(Decimal(4250, 2))
  {
    var p := "42.50";
    assert DotIndex(p) == 2;
    assert IntegerPart(p) == "42" && FractionPart(p) == "50";
    assert IntegerPart(p) + FractionPart(p) == "4250";
    assert IsUnsignedNumber(p);
    assert DigitsValue("4250") == 4250 by {
      assert "4250"[..3] == "425";
      assert "425"[..2] == "42";
      assert "42"[..1] == "4";
      assert "4"[..0] == "";
    }
  }

  /** Worked example: the comma is removed even where it was meant as a
      decimal comma, so "$9,99" reads as 999. */
  lemma ExampleDecimalComma()
    ensures CleanCell(Str("$9,99")) == Ok(Num(Decimal(999, 0)))
  {
    RemovesDecimalComma();
    ParsesDecimalComma();
    CleanVia("$9,99", "999");
  }

  lemma ParsesDecimalComma()
    ensures ParseSigned("999") == Ok(Decimal(999, 0))
  {
    var p := "999";
    assert DotIndex(p) == 3;
    assert IntegerPart(p) == p && FractionPart(p) == "";
    assert IntegerPart(p) + FractionPart(p) == p;
    assert IsUnsignedNumber(p);
    assert DigitsValue(p) == 999 by {
      assert "999"[..2] == "99";
      assert "99"[..1] == "9";
      assert "9"[..0] == "";
    }
  }

  lemma RemovesThousands()
    ensures RemoveSymbols("$12,345.67") == "12345.67"
  {
    var head, tail := "$12,", "345.67";
    assert head + tail == "$12,345.67";
    RemoveSymbolsConcat(head, tail);
    RemovesThousandsHead();
    RemoveSymbolsPlain(tail);
    assert "12" + tail == "12345.67";
  }

  lemma RemovesThousandsHead()
    ensures RemoveSymbols("$12,") == "12"
  {
    var a, b := "$12", ",";
    assert a + b == "$12,";
    RemoveSymbolsConcat(a, b);
    assert RemoveSymbols(b) == [];
    assert RemoveSymbols(a) == "12";
    assert "12" + [] == "12";
  }

  lemma RemovesZero()
    ensures RemoveSymbols("$0") == "0"
  {
  }

  lemma RemovesNothing()
    ensures RemoveSymbols("42.50") == "42.50"
  {
  }

  lemma RemovesDecimalComma()
    ensures RemoveSymbols("$9,99") == "999"
  {
  }

  lemma DigitsOfThousands()
    ensures DigitsValue("1234567") == 1234567
  {
    assert "1234567"[..6] == "123456";
    assert "123456"[..5] == "12345";
    assert "12345"[..4] == "1234";
    assert "1234"[..3] == "123";
    assert "123"[..2] == "12";
    assert "12"[..1] == "1";
    assert "1"[..0] == "";
  }

  /** Cleaning a raw price whose symbol-free remainder starts and ends with
      a digit gives exactly what the parser makes of that remainder. */
  lemma CleanVia(raw: string, plain: string)
    requires RemoveSymbols(raw) == plain
    requires |plain| > 0 && IsDigit(plain[0]) && IsDigit(plain[|plain| - 1])
    ensures CleanCell(Str(raw)).Ok? <==> ParseSigned(plain).Ok?
    ensures ParseSigned(plain).Ok? ==> CleanCell(Str(raw)) == Ok(Num(ParseSigned(plain).value))
  {
    DigitNotSpace(plain[0]);
    DigitNotSpace(plain[|plain| - 1]);
    ParseTrimmed(plain);
  }

  /** The decimals above denote the values one would read off the text. */
  lemma ExampleValues()
    ensures Value(Decimal(1234567, 2)) == 12345.67
    ensures Value(Decimal(4250, 2)) == 42.5
    ensures Value(Decimal(999, 0)) == 999.0
  {
    assert Pow10(2) == 100;
  }

  /** A bare currency sign leaves the empty text, which is no number. */
  lemma ExampleBareSign()
    ensures CleanCell(Str("$")).Err?
  {
    assert RemoveSymbols("$") == "";
    assert IntegerPart("") == "" && FractionPart("") == "";
    assert !IsUnsignedNumber("");
    CleanFailsVia("$", "");
  }

  /** A remainder with nothing to strip and no number in it, with or
      without a sign, fails to clean. */
  lemma CleanFailsVia(raw: string, plain: string)
    requires RemoveSymbols(raw) == plain && Text.Strip(plain) == plain
    requires plain == [] || !IsSign(plain[0])
    requires !IsUnsignedNumber(plain)
    ensures CleanCell(Str(raw)).Err?
  {
  }

  /** `float("5.")` and `float("-.5")` are numbers: a point may end or
      start the numeral as long as a digit stands on one side of it. */
  lemma ExampleTrailingPoint()
    ensures ParseFloat("5.") == Ok(Decimal(5, 0))
  {
    var sp := Spelling("", "", "5", true, "", "");
    SpellsTrailingPoint(sp);
    ParseSpelling(sp);
  }

  lemma SpellsTrailingPoint(sp: Spelling)
    requires sp == Spelling("", "", "5", true, "", "")
    ensures ValidSpelling(sp) && Spell(sp) == "5."
    ensures SpelledValue(sp) == Decimal(5, 0)
  {
    assert Numeral(sp) == "5.";
    SingleDigit("5", "");
  }

  lemma ExampleLeadingPoint()
    ensures ParseFloat("-.5") == Ok(Decimal(-5, 1))
  {
    var sp := Spelling("", "-", "", true, "5", "");
    SpellsLeadingPoint(sp);
    ParseSpelling(sp);
  }

  lemma SpellsLeadingPoint(sp: Spelling)
    requires sp == Spelling("", "-", "", true, "5", "")
    ensures ValidSpelling(sp) && Spell(sp) == "-.5"
    ensures SpelledValue(sp) == Decimal(-5, 1)
  {
    assert Numeral(sp) == ".5";
    SingleDigit("", "5");
  }

  /** Unicode whitespace such as a no-break space pads a number as well as
      an ASCII blank does. */
  lemma ExampleUnicodePadding()
    ensures ParseFloat(" 7\U{00A0}") == Ok(Decimal(7, 0))
  {
    var sp := Spelling(" ", "", "7", false, "", "\U{00A0}");
    SpellsUnicodePadding(sp);
    ParseSpelling(sp);
  }

  lemma SpellsUnicodePadding(sp: Spelling)
    requires sp == Spelling(" ", "", "7", false, "", "\U{00A0}")
    ensures ValidSpelling(sp) && Spell(sp) == " 7\U{00A0}"
    ensures SpelledValue(sp) == Decimal(7, 0)
  {
    assert Text.AllSpace(" ") && Text.AllSpace("\U{00A0}");
    assert Numeral(sp) == "7";
    SingleDigit("7", "");
  }

  /** One digit, on either side of the point, reads as its own value. */
  lemma SingleDigit(whole: string, frac: string)
    requires |whole + frac| == 1 && AllDigits(whole) && AllDigits(frac)
    ensures Magnitude(whole, frac) == ((whole + frac)[0] - '0') as nat
  {
    var d := whole + frac;
    assert d[..|d| - 1] == [];
    assert DigitsValue(d) == 10 * DigitsValue([]) + (d[0] - '0') as nat;
  }

  /** An information separator is whitespace to `str.strip` but not to
      `float`, so a price padded with one is no number. */
  lemma ExampleSeparatorPadding()
    ensures Text.Strip("5\U{001C}") == "5"
    ensures ParseFloat("5\U{001C}").Err?
  {
    var s := "5\U{001C}";
    assert IsSeparator(s[1]);
    Text.StripUnpads([], "5", "\U{001C}");
    assert [] + "5" + "\U{001C}" == s;
  }
}
