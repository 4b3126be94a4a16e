/** Decimal numbers as JavaScript reads them with `parseFloat` and writes them
    with `Number.prototype.toString`, restricted to the notation without an
    exponent and evaluated exactly (no IEEE-754 rounding). */
module Decimals {
  import opened Wrappers
  import opened Chars

  /** The literal `intDigits.fracDigits`; either part may be empty, not both. */
  datatype Decimal = Decimal(intDigits: Digits, fracDigits: Digits) {
    predicate Valid() {
      |intDigits| + |fracDigits| > 0
    }
  }

  function FracValue(ds: Digits): (v: real)
    ensures 0.0 <= v
  {
    DigitsValue(ds) as real / Pow10(|ds|) as real
  }

  function Value(d: Decimal): (v: real)
    ensures 0.0 <= v
  {
    DigitsValue(d.intDigits) as real + FracValue(d.fracDigits)
  }

  function ValueOf(d: Option<Decimal>): (r: Option<real>)
    ensures r.Some? <==> d.Some?
    ensures d.Some? ==> r.value == Value(d.value)
  {
    match d
    case None => None
    case Some(x) => Some(Value(x))
  }

  /** The text of a decimal: the dot is written only when a fraction follows it. */
  function Format(d: Decimal): string {
    d.intDigits + (if |d.fracDigits| == 0 then "" else "." + d.fracDigits)
  }

  /** A trailing zero in the fraction does not change its value. */
  lemma FracValueAppendZero(ds: Digits)
    ensures AllDigits(ds + "0")
    ensures FracValue(ds + "0") == FracValue(ds)
  {
    DigitsValueAppendZero(ds);
    var a := DigitsValue(ds) as real;
    var b := Pow10(|ds|) as real;
    assert Pow10(|ds + "0"|) as real == 10.0 * b;
    assert DigitsValue(ds + "0") as real == 10.0 * a;
    assert (10.0 * a) / (10.0 * b) == a / b;
  }

  function StripTrailingZeros(ds: Digits): (r: Digits)
    ensures r <= ds
    ensures |r| == 0 || r[|r| - 1] != '0'
    ensures forall i | |r| <= i < |ds| :: ds[i] == '0'
    ensures FracValue(r) == FracValue(ds)
  {
    if |ds| > 0 && ds[|ds| - 1] == '0' then
      var shorter: Digits := ds[..|ds| - 1];
      assert ds == shorter + "0";
      FracValueAppendZero(shorter);
      StripTrailingZeros(shorter)
    else ds
  }

  /** The spelling of a decimal's value that `toString` prints: no redundant
      digits, with the integer part written as `0` when it is zero and the
      fraction without trailing zeros. */
  function Canonical(d: Decimal): (c: Decimal)
    ensures c.Valid()
    ensures |c.intDigits| > 0
    ensures Value(c) == Value(d)
    ensures |c.intDigits| > 1 ==> c.intDigits[0] != '0'
    ensures |c.fracDigits| == 0 || c.fracDigits[|c.fracDigits| - 1] != '0'
  {
    Decimal(NatToDigits(DigitsValue(d.intDigits)), StripTrailingZeros(d.fracDigits))
  }

  /** The longest prefix of `s` of the form `digits [. digits]` or `. digits`:
      a JavaScript unsigned decimal literal without exponent. */
  function ScanDecimal(s: string): Option<Decimal> {
    var whole := LeadingDigits(s);
    var rest := s[|whole|..];
    var frac := if |rest| > 0 && rest[0] == '.' then LeadingDigits(rest[1..]) else "";
    if |whole| + |frac| == 0 then None else Some(Decimal(whole, frac))
  }

  /** The scanner finds a literal exactly when the text starts with a digit or
      with a dot followed by a digit; the literal's text is a prefix of the input
      that no further digit could extend. */
  lemma ScanDecimalSpec(s: string)
    ensures var r := ScanDecimal(s);
            && (r.None? <==> !(|s| > 0 && IsDigit(s[0])) && !(|s| > 1 && s[0] == '.' && IsDigit(s[1])))
            && (r.Some? ==> r.value.Valid() && Format(r.value) <= s)
            && (r.Some? ==> |Format(r.value)| == |s| || !IsDigit(s[|Format(r.value)|]))
  {
    var whole := LeadingDigits(s);
    var rest := s[|whole|..];
    assert s == whole + rest;
    if |rest| > 0 && rest[0] == '.' {
      var frac := LeadingDigits(rest[1..]);
      assert rest == "." + rest[1..];
      assert "." + frac <= rest;
    }
  }

  /** A digit run that is a prefix of `s` lies within the leading digit run of `s`. */
  lemma DigitPrefixWithinRun(ds: Digits, s: string)
    requires ds <= s
    ensures ds <= LeadingDigits(s)
  {
  }

  /** The scanner reads the longest literal: every decimal whose text starts `s`
      is found, and its text is a prefix of the literal the scanner reads. */
  lemma ScanDecimalLongest(s: string, d: Decimal)
    requires d.Valid() && Format(d) <= s
    ensures ScanDecimal(s).Some?
    ensures Format(d) <= Format(ScanDecimal(s).value)
  {
    assert d.intDigits <= s;
    DigitPrefixWithinRun(d.intDigits, s);
    if |d.fracDigits| > 0 {
      LongestWithFraction(s, d);
    }
  }

  /** A decimal with a fraction that starts `s` has the whole leading digit run
      as its integer part, and its fraction lies within the digits after the dot. */
  lemma LongestWithFraction(s: string, d: Decimal)
    requires d.Valid() && Format(d) <= s && |d.fracDigits| > 0
    requires d.intDigits <= LeadingDigits(s)
    ensures d.intDigits == LeadingDigits(s)
    ensures ScanDecimal(s) == Some(Decimal(d.intDigits, LeadingDigits(s[|d.intDigits| + 1..])))
    ensures d.fracDigits <= LeadingDigits(s[|d.intDigits| + 1..])
  {
    var n := |d.intDigits|;
    assert Format(d) == d.intDigits + "." + d.fracDigits;
    assert s[n] == '.';
    var whole := LeadingDigits(s);
    assert |whole| == n;
    assert s[n + 1..][..|d.fracDigits|] == d.fracDigits;
    DigitPrefixWithinRun(d.fracDigits, s[n + 1..]);
    assert s[|whole|..][1..] == s[n + 1..];
  }

  /** JavaScript `parseFloat`: skip leading whitespace, take an optional sign,
      then the longest decimal literal; `None` stands for `NaN`. */
  function ParseFloat(s: string): Option<real> {
    var t := TrimStart(s);
    if |t| > 0 && t[0] == '-' then
      match ScanDecimal(t[1..])
      case None => None
      case Some(d) => Some(-Value(d))
    else if |t| > 0 && t[0] == '+' then ValueOf(ScanDecimal(t[1..]))
    else ValueOf(ScanDecimal(t))
  }

  /** A text that starts with a digit or a dot is read by `parseFloat` as the
      decimal literal it starts with. */
  lemma ParseFloatUnsigned(s: string)
    requires |s| > 0 && IsPriceChar(s[0])
    ensures ParseFloat(s) == ValueOf(ScanDecimal(s))
  {
    assert !IsJsSpace(s[0]);
    assert TrimStart(s) == s;
  }

  /** Scanning the text of a decimal gives back that decimal. */
  lemma ScanFormat(d: Decimal)
    requires d.Valid()
    ensures ScanDecimal(Format(d)) == Some(d)
  {
    var s := Format(d);
    var tail := if |d.fracDigits| == 0 then "" else "." + d.fracDigits;
    assert s == d.intDigits + tail;
    LeadingDigitsOfRun(d.intDigits, tail);
    assert s[|d.intDigits|..] == tail;
    if |d.fracDigits| > 0 {
      assert tail[1..] == d.fracDigits + "";
      LeadingDigitsOfRun(d.fracDigits, "");
    }
  }

  /** `parseFloat` reads the text of a decimal back as its value. */
  lemma ParseFormat(d: Decimal)
    requires d.Valid()
    ensures ParseFloat(Format(d)) == Some(Value(d))
  {
    ScanFormat(d);
    ParseFloatUnsigned(Format(d));
  }

  /** `parseFloat(x.toString())` is `x` for a decimal `x` (exact arithmetic, no exponent). */
  lemma ParseFormatCanonical(d: Decimal)
    ensures ParseFloat(Format(Canonical(d))) == Some(Value(d))
  {
    ParseFormat(Canonical(d));
  }
}
