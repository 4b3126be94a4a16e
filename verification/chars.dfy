/** Character classes, decimal digit strings and the JavaScript whitespace
    trimming that the price text and stock text pass through. */
module Chars {

  /** `[0-9]`; also what `\d` matches in a JavaScript regular expression without the `u` flag. */
  predicate IsDigit(c: char) {
    '0' <= c <= '9'
  }

  /** The characters the class `[0-9.]` keeps; every other character is deleted from price text. */
  predicate IsPriceChar(c: char) {
    IsDigit(c) || c == '.'
  }

  /** JavaScript's WhiteSpace and LineTerminator code points: what `trim` removes
      and what `parseFloat` skips before the number. */
  predicate IsJsSpace(c: char) {
    || c == '\t' || c == '\n' || c == '\U{B}' || c == '\U{C}' || c == '\r' || c == ' '
    || c == '\U{A0}' || c == '\U{1680}' || ('\U{2000}' <= c <= '\U{200A}')
    || c == '\U{2028}' || c == '\U{2029}' || c == '\U{202F}' || c == '\U{205F}'
    || c == '\U{3000}' || c == '\U{FEFF}'
  }

  predicate AllDigits(s: string) {
    forall i | 0 <= i < |s| :: IsDigit(s[i])
  }

  type Digits = s: string | AllDigits(s)

  function DigitValue(c: char): (v: nat)
    requires IsDigit(c)
    ensures v < 10
  {
    c as int - '0' as int
  }

  function DigitChar(v: nat): (c: char)
    requires v < 10
    ensures IsDigit(c) && DigitValue(c) == v
  {
    ('0' as int + v) as char
  }

  /** The number a digit string denotes, most significant digit first; `""` denotes 0. */
  function DigitsValue(ds: Digits): nat {
    if |ds| == 0 then 0 else 10 * DigitsValue(ds[..|ds| - 1]) + DigitValue(ds[|ds| - 1])
  }

  function Pow10(n: nat): (p: nat)
    ensures p >= 1
  {
    if n == 0 then 1 else 10 * Pow10(n - 1)
  }

  /** An integer as JavaScript prints it: no sign, no leading zero, and a
      digit string that denotes the number again. */
  function NatToDigits(n: nat): (ds: Digits)
    ensures |ds| > 0
    ensures |ds| > 1 ==> ds[0] != '0'
    ensures DigitsValue(ds) == n
  {
    if n < 10 then [DigitChar(n)]
    else
      var ds := NatToDigits(n / 10) + [DigitChar(n % 10)];
      assert ds[..|ds| - 1] == NatToDigits(n / 10);
      ds
  }

  /** Appending a zero digit multiplies the value by ten. */
  lemma DigitsValueAppendZero(ds: Digits)
    ensures AllDigits(ds + "0")
    ensures DigitsValue(ds + "0") == 10 * DigitsValue(ds)
  {
    assert (ds + "0")[..|ds|] == ds;
  }

  /** The longest prefix of `s` made of digits. */
  function LeadingDigits(s: string): (ds: Digits)
    ensures ds <= s
    ensures |ds| == |s| || !IsDigit(s[|ds|])
  {
    if |s| > 0 && IsDigit(s[0]) then [s[0]] + LeadingDigits(s[1..]) else ""
  }

  /** A digit run followed by the end of the text or by a non-digit is exactly the leading digit run. */
  lemma {:induction false} LeadingDigitsOfRun(ds: Digits, rest: string)
    requires |rest| == 0 || !IsDigit(rest[0])
    ensures LeadingDigits(ds + rest) == ds
  {
    if |ds| > 0 {
      assert (ds + rest)[1..] == ds[1..] + rest;
      LeadingDigitsOfRun(ds[1..], rest);
    } else {
      assert ds + rest == rest;
    }
  }

  /** `s` with its leading JavaScript whitespace removed. */
  function TrimStart(s: string): string {
    if |s| > 0 && IsJsSpace(s[0]) then TrimStart(s[1..]) else s
  }

  /** `s` with its trailing JavaScript whitespace removed. */
  function TrimEnd(s: string): string {
    if |s| > 0 && IsJsSpace(s[|s| - 1]) then TrimEnd(s[..|s| - 1]) else s
  }

  /** Trimming the start removes a run of whitespace and stops at the first other character. */
  lemma {:induction false} TrimStartSplits(s: string)
    ensures var r := TrimStart(s);
            && |r| <= |s| && s == s[..|s| - |r|] + r
            && (forall i | 0 <= i < |s| - |r| :: IsJsSpace(s[i]))
            && (|r| == 0 || !IsJsSpace(r[0]))
  {
    if |s| > 0 && IsJsSpace(s[0]) {
      TrimStartSplits(s[1..]);
      var r := TrimStart(s[1..]);
      assert s[1..] == s[1..][..|s| - 1 - |r|] + r;
      assert s[..|s| - |r|] == [s[0]] + s[1..][..|s| - 1 - |r|];
    }
  }

  /** Trimming the end removes a run of whitespace and stops at the last other character. */
  lemma {:induction false} TrimEndSplits(s: string)
    ensures var r := TrimEnd(s);
            && |r| <= |s| && s == r + s[|r|..]
            && (forall i | |r| <= i < |s| :: IsJsSpace(s[i]))
            && (|r| == 0 || !IsJsSpace(r[|r| - 1]))
  {
    if |s| > 0 && IsJsSpace(s[|s| - 1]) {
      var t := s[..|s| - 1];
      TrimEndSplits(t);
      var r := TrimEnd(t);
      assert t == r + t[|r|..];
      assert s == t + [s[|s| - 1]];
      assert s[|r|..] == t[|r|..] + [s[|s| - 1]];
    }
  }

  /** `String.prototype.trim`. */
  function Trim(s: string): string {
    TrimEnd(TrimStart(s))
  }
}
