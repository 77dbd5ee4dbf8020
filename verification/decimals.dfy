/** Exact decimal numbers, the text-to-number conversion that `astype(float)`
    performs on the price column, and a printer that inverts it. */
module Decimals {
  import opened Results
  import Text

  /** The number `mantissa / 10^scale`; `scale` counts the digits after the point. */
  datatype Decimal = Decimal(mantissa: int, scale: nat)

  function Pow10(n: nat): (r: nat)
    ensures r >= 1
  {
    if n == 0 then 1 else 10 * Pow10(n - 1)
  }

  /** The exact value a decimal denotes. */
  function Value(d: Decimal): real {
    d.mantissa as real / Pow10(d.scale) as real
  }

  predicate IsDigit(c: char) {
    '0' <= c <= '9'
  }

  /** No digit is whitespace. */
  lemma DigitNotSpace(c: char)
    requires IsDigit(c)
    ensures !Text.IsSpace(c)
  {
  }

  predicate AllDigits(s: string) {
    forall i :: 0 <= i < |s| ==> IsDigit(s[i])
  }

  function DigitChar(n: nat): (c: char)
    requires n < 10
    ensures IsDigit(c)
  {
    '0' + n as char
  }

  /** The natural number a string of decimal digits spells, most significant first. */
  function DigitsValue(s: string): nat
    requires AllDigits(s)
  {
    if s == [] then 0
    else 10 * DigitsValue(s[..|s| - 1]) + (s[|s| - 1] - '0') as nat
  }

  /** The digits on both sides of a point, read together as one natural number. */
  function Magnitude(whole: string, frac: string): nat
    requires AllDigits(whole) && AllDigits(frac)
  {
    DigitsConcat(whole, frac);
    DigitsValue(whole + frac)
  }

  lemma DigitsConcat(a: string, b: string)
    requires AllDigits(a) && AllDigits(b)
    ensures AllDigits(a + b)
  {
    assert forall i :: 0 <= i < |a + b| ==> (a + b)[i] == if i < |a| then a[i] else b[i - |a|];
  }

  /** The decimal digits of `n`, left-padded with zeros to at least `width` digits. */
  function NatDigits(n: nat, width: nat): (s: string)
    ensures AllDigits(s) && DigitsValue(s) == n
    ensures |s| >= 1 && |s| >= width
    decreases n, width
  {
    if n < 10 && width <= 1 then [DigitChar(n)]
    else
      var prefix := NatDigits(n / 10, if width > 0 then width - 1 else 0);
      var s := prefix + [DigitChar(n % 10)];
      assert s[..|s| - 1] == prefix;
      s
  }

  /** Position of the first '.', or the length when there is none. */
  function DotIndex(s: string): (k: nat)
    ensures k <= |s|
    ensures forall i :: 0 <= i < k ==> s[i] != '.'
    ensures k < |s| ==> s[k] == '.'
  {
    if s == [] || s[0] == '.' then 0 else 1 + DotIndex(s[1..])
  }

  function IntegerPart(s: string): string {
    s[..DotIndex(s)]
  }

  function FractionPart(s: string): string {
    var k := DotIndex(s);
    if k < |s| then s[k + 1..] else []
  }

  /** The unsigned grammar accepted: `digits [ '.' digits ]` with at least one
      digit on one side of the point ("5", "5.", ".5", "5.25"). */
  predicate IsUnsignedNumber(s: string) {
    && AllDigits(IntegerPart(s))
    && AllDigits(FractionPart(s))
    && |IntegerPart(s)| + |FractionPart(s)| > 0
  }

  predicate IsSign(c: char) {
    c == '-' || c == '+'
  }

  /** A number with no surrounding whitespace: an optional sign, then an
      unsigned number. */
  function ParseSigned(t: string): (r: Result<Decimal>)
  {
    var body := if |t| > 0 && IsSign(t[0]) then t[1..] else t;
    if IsUnsignedNumber(body) then
      var magnitude: int := Magnitude(IntegerPart(body), FractionPart(body));
      Ok(Decimal(if t[0] == '-' then -magnitude else magnitude, |FractionPart(body)|))
    else
      Err(NotNumeric(t))
  }

  /** The information separators U+001C..U+001F: `str.isspace` counts them
      as whitespace, but `float()` only strips ASCII blanks (after mapping
      the other Unicode whitespace to ' '), so a separator is neither
      stripped by it nor part of any number it reads. */
  predicate IsSeparator(c: char) {
    '\U{001C}' <= c <= '\U{001F}'
  }

  predicate NoSeparator(s: string) {
    forall i :: 0 <= i < |s| ==> !IsSeparator(s[i])
  }

  /** Python's `float(s)` restricted to plain decimal notation: surrounding
      whitespace is ignored, then an optional sign and an unsigned number.
      Anything else is a `ValueError` naming the offending text. Because
      `float()` strips every whitespace character except the separators,
      and a separator left at either end (or inside) spoils the number, the
      text is read as its `str.strip()` core provided it holds no separator
      at all. */
  function ParseFloat(s: string): (r: Result<Decimal>)
    ensures r.Err? ==> r.error == NotNumeric(s)
    ensures r.Ok? ==> NoSeparator(s)
  {
    var p := ParseSigned(Text.Strip(s));
    if p.Ok? && NoSeparator(s) then p else Err(NotNumeric(s))
  }

  /** A text `ParseSigned` accepts is made of signs, digits and a point
      only, so it holds neither whitespace nor a separator. */
  lemma ParsedHasNoSeparator(t: string)
    requires ParseSigned(t).Ok?
    ensures NoSeparator(t)
  {
    var body := if |t| > 0 && IsSign(t[0]) then t[1..] else t;
    var k := DotIndex(body);
    forall i | 0 <= i < |body|
      ensures !IsSeparator(body[i])
    {
      if i < k {
        assert body[i] == IntegerPart(body)[i];
      } else if k < i {
        assert body[i] == FractionPart(body)[i - k - 1];
      }
    }
    forall i | 0 <= i < |t|
      ensures !IsSeparator(t[i])
    {
      if body != t && i > 0 {
        assert t[i] == body[i - 1];
      }
    }
  }

  function Abs(n: int): nat {
    if n < 0 then -n else n
  }

  /** The digits with a point inserted before the last `scale` of them
      (no point when `scale` is zero). */
  function PointAt(digits: string, scale: nat): (u: string)
    requires AllDigits(digits) && |digits| > scale
    ensures |u| > 0 && IsDigit(u[0]) && IsDigit(u[|u| - 1])
  {
    var k := |digits| - scale;
    if scale == 0 then digits else digits[..k] + "." + digits[k..]
  }

  /** Plain decimal notation: a '-' for negative mantissas, at least one integer
      digit, and exactly `scale` digits after the point. */
  function Format(d: Decimal): (s: string)
    ensures Text.Trimmed(s)
  {
    var u := Unsigned(d);
    DigitNotSpace(u[0]);
    DigitNotSpace(u[|u| - 1]);
    if d.mantissa < 0 then
      assert !Text.IsSpace('-');
      "-" + u
    else u
  }

  /** The rendering of the magnitude, without the sign. */
  function Unsigned(d: Decimal): (u: string)
    ensures |u| > 0 && IsDigit(u[0]) && IsDigit(u[|u| - 1])
  {
    PointAt(NatDigits(Abs(d.mantissa), d.scale + 1), d.scale)
  }

  /** The unsigned rendering is a number whose digits read back as the
      magnitude, with `scale` of them after the point. */
  lemma UnsignedParts(d: Decimal)
    ensures IsUnsignedNumber(Unsigned(d))
    ensures Magnitude(IntegerPart(Unsigned(d)), FractionPart(Unsigned(d))) == Abs(d.mantissa)
    ensures |FractionPart(Unsigned(d))| == d.scale
  {
    PointAtParts(NatDigits(Abs(d.mantissa), d.scale + 1), d.scale);
  }

  /** Parsing what `Format` prints gives back the same mantissa and scale. */
  lemma ParseFormat(d: Decimal)
    ensures ParseFloat(Format(d)) == Ok(d)
  {
    var s := Format(d);
    Text.StripTrimmed(s);
    ParseSignedFormat(d);
    ParsedHasNoSeparator(s);
    assert ParseFloat(s) == if ParseSigned(s).Ok? then ParseSigned(s) else Err(NotNumeric(s));
  }

  lemma ParseSignedFormat(d: Decimal)
    ensures ParseSigned(Format(d)) == Ok(d)
  {
    var u := Unsigned(d);
    UnsignedParts(d);
    if d.mantissa < 0 {
      assert Format(d) == "-" + u;
      ParseNegated(u);
    } else {
      assert Format(d) == u;
      ParseUnsigned(u);
    }
  }

  /** An unsigned number that starts with a digit parses to its digits. */
  lemma ParseUnsigned(u: string)
    requires IsUnsignedNumber(u) && IsDigit(u[0])
    ensures ParseSigned(u)
      == Ok(Decimal(Magnitude(IntegerPart(u), FractionPart(u)), |FractionPart(u)|))
  {
    assert !IsSign(u[0]);
  }

  /** The same number behind a minus sign parses to its negation. */
  lemma ParseNegated(u: string)
    requires IsUnsignedNumber(u)
    ensures ParseSigned("-" + u)
      == Ok(Decimal(0 - Magnitude(IntegerPart(u), FractionPart(u)), |FractionPart(u)|))
  {
    var t := "-" + u;
    assert t[0] == '-' && IsSign(t[0]);
    assert t[1..] == u;
  }

  /** `PointAt` puts exactly `scale` digits after the point, and the digits
      on both sides read together give back the original string. */
  lemma PointAtParts(digits: string, scale: nat)
    requires AllDigits(digits) && |digits| > scale
    ensures IsUnsignedNumber(PointAt(digits, scale))
    ensures IntegerPart(PointAt(digits, scale)) + FractionPart(PointAt(digits, scale)) == digits
    ensures |FractionPart(PointAt(digits, scale))| == scale
  {
    var k := |digits| - scale;
    var u := PointAt(digits, scale);
    if scale == 0 {
      assert digits + [] == digits;
      DotIndexOfDigits(digits, []);
      assert IntegerPart(u) == digits;
    } else {
      assert u == digits[..k] + ("." + digits[k..]);
      DotIndexOfDigits(digits[..k], "." + digits[k..]);
      assert IntegerPart(u) == digits[..k];
      assert FractionPart(u) == digits[k..];
      assert digits[..k] + digits[k..] == digits;
    }
  }

  /** After leading digits, the first point is where the digits end. */
  lemma {:induction false} DotIndexOfDigits(whole: string, rest: string)
    requires AllDigits(whole)
    requires rest == [] || rest[0] == '.'
    ensures DotIndex(whole + rest) == |whole|
    decreases |whole|
  {
    if whole != [] {
      assert (whole + rest)[0] == whole[0];
      assert (whole + rest)[1..] == whole[1..] + rest;
      DotIndexOfDigits(whole[1..], rest);
    } else {
      assert whole + rest == rest;
    }
  }

  /** Surrounding whitespace does not change what a text parses to, except
      that a text holding a separator is refused. */
  lemma ParseIgnoresPadding(x: string)
    ensures ParseFloat(x).Ok? <==> NoSeparator(x) && ParseFloat(Text.Strip(x)).Ok?
    ensures ParseFloat(x).Ok? ==> ParseFloat(x) == ParseFloat(Text.Strip(x))
  {
    Text.StripIdempotent(x);
    SameStripSameParse(x, Text.Strip(x));
  }

  /** A text parses as its stripped core does, provided it holds no separator. */
  lemma SameStripSameParse(x: string, t: string)
    requires Text.Strip(x) == t && Text.Strip(t) == t
    ensures ParseFloat(x).Ok? <==> NoSeparator(x) && ParseFloat(t).Ok?
    ensures ParseFloat(x).Ok? ==> ParseFloat(x) == ParseFloat(t)
  {
    if ParseSigned(t).Ok? {
      ParsedHasNoSeparator(t);
    }
    assert ParseFloat(x) == if ParseSigned(t).Ok? && NoSeparator(x) then ParseSigned(t) else Err(NotNumeric(x));
    assert ParseFloat(t) == if ParseSigned(t).Ok? && NoSeparator(t) then ParseSigned(t) else Err(NotNumeric(t));
  }

  /** Text with no surrounding whitespace is parsed as it stands. */
  lemma ParseTrimmed(s: string)
    requires Text.Trimmed(s)
    ensures ParseFloat(s) == if ParseSigned(s).Ok? then ParseSigned(s) else Err(NotNumeric(s))
  {
    Text.StripTrimmed(s);
    if ParseSigned(s).Ok? {
      ParsedHasNoSeparator(s);
    }
  }

  /** The layout of a text `float()` reads as a plain decimal: whitespace
      other than the separators, an optional sign, the whole-number digits,
      an optional point, the fraction digits (only after a point), and
      whitespace again, with at least one digit in all. */
  datatype Spelling = Spelling(pre: string, sign: string, whole: string, point: bool, frac: string, post: string)

  predicate ValidSpelling(sp: Spelling) {
    && Text.AllSpace(sp.pre) && NoSeparator(sp.pre)
    && Text.AllSpace(sp.post) && NoSeparator(sp.post)
    && (sp.sign == "" || sp.sign == "-" || sp.sign == "+")
    && AllDigits(sp.whole) && AllDigits(sp.frac)
    && |sp.whole| + |sp.frac| > 0
    && (sp.point || sp.frac == [])
  }

  /** The unsigned number of a spelling, without sign and padding. */
  function Numeral(sp: Spelling): string {
    sp.whole + (if sp.point then "." else "") + sp.frac
  }

  function Spell(sp: Spelling): string {
    sp.pre + sp.sign + Numeral(sp) + sp.post
  }

  /** The number a spelling denotes: its digits read together, negated
      after a minus sign, scaled by the count of fraction digits. */
  function SpelledValue(sp: Spelling): Decimal
    requires ValidSpelling(sp)
  {
    SignedDecimal(sp.sign, sp.whole, sp.frac)
  }

  function SignedDecimal(sign: string, whole: string, frac: string): Decimal
    requires AllDigits(whole) && AllDigits(frac)
  {
    var m: int := Magnitude(whole, frac);
    Decimal(if sign == "-" then -m else m, |frac|)
  }

  /** Every valid spelling parses, to the number it denotes. */
  lemma ParseSpelling(sp: Spelling)
    requires ValidSpelling(sp)
    ensures ParseFloat(Spell(sp)) == Ok(SpelledValue(sp))
  {
    var core := sp.sign + Numeral(sp);
    SpellingCore(sp);
    Text.StripUnpads(sp.pre, core, sp.post);
    Regroup(sp.pre, sp.sign, Numeral(sp), sp.post);
    SeparatorFree3(sp.pre, core, sp.post);
    ParseThroughCore(Spell(sp), core);
  }

  /** `ParseFloat` on a text whose stripped core is `t` and which holds no separator. */
  lemma ParseThroughCore(s: string, t: string)
    requires Text.Strip(s) == t && NoSeparator(s)
    ensures ParseFloat(s) == if ParseSigned(t).Ok? then ParseSigned(t) else Err(NotNumeric(s))
  {
  }

  lemma SeparatorFree3(a: string, b: string, c: string)
    requires NoSeparator(a) && NoSeparator(b) && NoSeparator(c)
    ensures NoSeparator(a + b + c)
  {
    var s := a + b + c;
    forall i | 0 <= i < |s|
      ensures !IsSeparator(s[i])
    {
      if i < |a| {
        assert s[i] == a[i];
      } else if i < |a| + |b| {
        assert s[i] == b[i - |a|];
      } else {
        assert s[i] == c[i - |a| - |b|];
      }
    }
  }

  /** The signed numeral of a valid spelling has no whitespace at its ends,
      no separator, and parses to the spelled value. */
  lemma SpellingCore(sp: Spelling)
    requires ValidSpelling(sp)
    ensures Text.Trimmed(sp.sign + Numeral(sp))
    ensures NoSeparator(sp.sign + Numeral(sp))
    ensures ParseSigned(sp.sign + Numeral(sp)) == Ok(SpelledValue(sp))
  {
    SignedNumeral(sp);
    ParsedHasNoSeparator(sp.sign + Numeral(sp));
    NumeralEnds(sp);
  }

  /** A sign followed by a numeral parses to the signed value of its digits. */
  lemma SignedNumeral(sp: Spelling)
    requires ValidSpelling(sp)
    ensures ParseSigned(sp.sign + Numeral(sp)) == Ok(SignedDecimal(sp.sign, sp.whole, sp.frac))
  {
    var u := Numeral(sp);
    var t := sp.sign + u;
    NumeralParts(sp);
    if sp.sign == "" {
      assert t == u;
      assert !IsSign(u[0]);
    } else {
      assert t[0] == sp.sign[0] && IsSign(t[0]);
      assert sp.sign == "-" <==> t[0] == '-';
      assert t[1..] == u;
    }
  }

  /** Where the point and the two digit runs of a numeral are. */
  lemma NumeralParts(sp: Spelling)
    requires ValidSpelling(sp)
    ensures IntegerPart(Numeral(sp)) == sp.whole
    ensures FractionPart(Numeral(sp)) == sp.frac
    ensures IsUnsignedNumber(Numeral(sp))
    ensures Numeral(sp)[0] == '.' || IsDigit(Numeral(sp)[0])
  {
    var u := Numeral(sp);
    var rest := (if sp.point then "." else "") + sp.frac;
    assert u == sp.whole + rest;
    DotIndexOfDigits(sp.whole, rest);
    assert IntegerPart(u) == sp.whole;
    if sp.point {
      assert u[|sp.whole| + 1..] == sp.frac;
    }
    if sp.whole != [] {
      assert u[0] == sp.whole[0];
    }
  }

  /** A numeral neither starts nor ends with whitespace, even behind a sign. */
  lemma NumeralEnds(sp: Spelling)
    requires ValidSpelling(sp)
    ensures Text.Trimmed(sp.sign + Numeral(sp))
  {
    var u := Numeral(sp);
    var t := sp.sign + u;
    NumeralParts(sp);
    var last := t[|t| - 1];
    assert last == u[|u| - 1];
    if sp.frac != [] {
      assert last == sp.frac[|sp.frac| - 1];
      DigitNotSpace(last);
    } else if !sp.point {
      assert last == sp.whole[|sp.whole| - 1];
      DigitNotSpace(last);
    } else {
      assert last == '.';
    }
    if sp.sign == "" {
      assert t[0] == u[0];
      if u[0] != '.' {
        DigitNotSpace(u[0]);
      }
    } else {
      assert t[0] == sp.sign[0];
    }
  }

  /** Conversely, every text `ParseFloat` accepts is a valid spelling of the
      number it parses to. With `ParseSpelling` this characterises the
      accepted texts exactly. */
  lemma SpellingOfParsed(s: string)
    requires ParseFloat(s).Ok?
    ensures exists sp :: ValidSpelling(sp) && Spell(sp) == s && ParseFloat(s) == Ok(SpelledValue(sp))
  {
    var sp := SpellingOf(s);
    assert ValidSpelling(sp) && Spell(sp) == s && ParseFloat(s) == Ok(SpelledValue(sp));
  }

  /** The spelling of an accepted text: its padding, its sign, and the two
      digit runs around its point. */
  lemma SpellingOf(s: string) returns (sp: Spelling)
    requires ParseFloat(s).Ok?
    ensures ValidSpelling(sp) && Spell(sp) == s && ParseFloat(s) == Ok(SpelledValue(sp))
  {
    var t := Text.Strip(s);
    AcceptedCore(s);
    var pre, post := PaddingOf(s);
    var sign, body := SignOf(t);
    sp := SpellingFromParts(pre, sign, body, post);
  }

  /** An accepted text holds no separator and parses as its stripped core. */
  lemma AcceptedCore(s: string)
    requires ParseFloat(s).Ok?
    ensures NoSeparator(s) && ParseSigned(Text.Strip(s)).Ok?
    ensures ParseFloat(s) == ParseSigned(Text.Strip(s))
  {
  }

  /** Padding, a sign and an unsigned number make a valid spelling. */
  lemma SpellingFromParts(pre: string, sign: string, body: string, post: string) returns (sp: Spelling)
    requires Text.AllSpace(pre) && NoSeparator(pre)
    requires Text.AllSpace(post) && NoSeparator(post)
    requires sign == "" || sign == "-" || sign == "+"
    requires IsUnsignedNumber(body)
    ensures ValidSpelling(sp)
    ensures Spell(sp) == pre + (sign + body) + post
    ensures SpelledValue(sp) == SignedDecimal(sign, IntegerPart(body), FractionPart(body))
  {
    BodyRebuilt(body);
    sp := Spelling(pre, sign, IntegerPart(body), DotIndex(body) < |body|, FractionPart(body), post);
    assert Numeral(sp) == body by {
      if sp.point {
        assert Numeral(sp) == IntegerPart(body) + "." + FractionPart(body);
      } else {
        assert Numeral(sp) == IntegerPart(body) + "" + [];
      }
    }
    Regroup(pre, sign, body, post);
  }

  lemma Regroup(a: string, b: string, c: string, d: string)
    ensures a + b + c + d == a + (b + c) + d
  {
  }

  /** The whitespace around the stripped core of a text without separators. */
  lemma PaddingOf(s: string) returns (pre: string, post: string)
    requires NoSeparator(s)
    ensures s == pre + Text.Strip(s) + post
    ensures Text.AllSpace(pre) && NoSeparator(pre)
    ensures Text.AllSpace(post) && NoSeparator(post)
  {
    var t := Text.Strip(s);
    var k := |s| - |Text.TrimStart(s)|;
    Text.StripSplits(s);
    pre := s[..k];
    post := s[k + |t|..];
    Split3(s, k, k + |t|);
    SeparatorFreeSlice(s, 0, k);
    assert s[0..k] == pre;
    SeparatorFreeDrop(s, k + |t|);
  }

  lemma Split3(s: string, i: nat, j: nat)
    requires i <= j <= |s|
    ensures s == s[..i] + s[i..j] + s[j..]
  {
  }

  lemma SeparatorFreeSlice(s: string, i: nat, j: nat)
    requires i <= j <= |s| && NoSeparator(s)
    ensures NoSeparator(s[i..j])
  {
    assert forall n :: 0 <= n < j - i ==> s[i..j][n] == s[i + n];
  }

  lemma SeparatorFreeDrop(s: string, i: nat)
    requires i <= |s| && NoSeparator(s)
    ensures NoSeparator(s[i..])
  {
    assert forall n :: 0 <= n < |s| - i ==> s[i..][n] == s[i + n];
  }

  /** An accepted core split into its sign (possibly empty) and its
      unsigned number, with the value `ParseSigned` gives it. */
  lemma SignOf(t: string) returns (sign: string, body: string)
    requires ParseSigned(t).Ok?
    ensures t == sign + body
    ensures sign == "" || sign == "-" || sign == "+"
    ensures IsUnsignedNumber(body)
    ensures ParseSigned(t) == Ok(SignedDecimal(sign, IntegerPart(body), FractionPart(body)))
  {
    if |t| > 0 && IsSign(t[0]) {
      sign := [t[0]];
      body := t[1..];
      assert t == sign + body;
      assert sign == "-" <==> t[0] == '-';
      assert ParseSigned(t) == Ok(SignedDecimal(sign, IntegerPart(body), FractionPart(body)));
    } else {
      sign := [];
      body := t;
      assert t != [] && t[0] != '-';
    }
  }

  /** A numeral is its whole part, its point if any, and its fraction part. */
  lemma BodyRebuilt(body: string)
    ensures DotIndex(body) < |body| ==> IntegerPart(body) + "." + FractionPart(body) == body
    ensures DotIndex(body) == |body| ==> IntegerPart(body) == body && FractionPart(body) == []
  {
    var d := DotIndex(body);
    if d < |body| {
      SplitAt(body, d);
    }
  }

  lemma SplitAt(s: string, d: nat)
    requires d < |s| && s[d] == '.'
    ensures s[..d] + "." + s[d + 1..] == s
  {
    assert s == s[..d] + s[d..];
    assert s[d..] == [s[d]] + s[d + 1..];
  }
}
