/** The cleaning of scraped price text: `text.replace(/[^0-9.]/g, '')`,
    followed by `parseFloat`. */
module PriceText {
  import opened Wrappers
  import opened Chars
  import opened Decimals

  /** Deletes every character outside `[0-9.]`, keeping the rest in order. */
  function Clean(s: string): (r: string)
    ensures |r| <= |s|
    ensures forall i | 0 <= i < |r| :: IsPriceChar(r[i])
  {
    if |s| == 0 then ""
    else (if IsPriceChar(s[0]) then [s[0]] else "") + Clean(s[1..])
  }

  /** The global replace scans the text left to right; this loop does the same
      and produces the filtered text. */
  method CleanPriceText(s: string) returns (r: string)
    ensures r == Clean(s)
  {
    r := "";
    var i := 0;
    while i < |s|
      invariant 0 <= i <= |s|
      invariant r == Clean(s[..i])
    {
      assert s[..i + 1] == s[..i] + [s[i]];
      CleanConcat(s[..i], [s[i]]);
      if IsPriceChar(s[i]) {
        r := r + [s[i]];
      }
      i := i + 1;
    }
    assert s[..|s|] == s;
  }

  /** Cleaning distributes over concatenation, so the kept characters keep their order. */
  lemma {:induction false} CleanConcat(a: string, b: string)
    ensures Clean(a + b) == Clean(a) + Clean(b)
  {
    if |a| > 0 {
      assert (a + b)[1..] == a[1..] + b;
      CleanConcat(a[1..], b);
    } else {
      assert a + b == b;
    }
  }

  /** Cleaning leaves a text unchanged exactly when it already consists of digits and dots only. */
  lemma {:induction false} CleanFixpoint(s: string)
    ensures Clean(s) == s <==> forall i | 0 <= i < |s| :: IsPriceChar(s[i])
  {
    if |s| > 0 && forall i | 0 <= i < |s| :: IsPriceChar(s[i]) {
      assert forall i | 0 <= i < |s[1..]| :: IsPriceChar(s[1..][i]) by {
        forall i | 0 <= i < |s[1..]| ensures IsPriceChar(s[1..][i]) {
          assert s[1..][i] == s[i + 1];
        }
      }
      CleanFixpoint(s[1..]);
      assert s == [s[0]] + s[1..];
    }
  }

  /** Cleaning twice is cleaning once. */
  lemma CleanIdempotent(s: string)
    ensures Clean(Clean(s)) == Clean(s)
  {
    CleanFixpoint(Clean(s));
  }

  /** Every digit and dot of the input survives as often as it occurs, and nothing else survives. */
  lemma {:induction false} CleanCounts(s: string, c: char)
    ensures multiset(Clean(s))[c] == if IsPriceChar(c) then multiset(s)[c] else 0
  {
    if |s| > 0 {
      CleanCounts(s[1..], c);
      assert s == [s[0]] + s[1..];
      assert multiset(s) == multiset([s[0]]) + multiset(s[1..]);
    }
  }

  /** Whitespace is never a price character, so a run of it cleans to nothing. */
  lemma {:induction false} CleanOfSpaces(s: string)
    requires forall i | 0 <= i < |s| :: IsJsSpace(s[i])
    ensures Clean(s) == ""
  {
    if |s| > 0 {
      assert IsJsSpace(s[0]);
      CleanOfSpaces(s[1..]);
    }
  }

  /** Leading whitespace contributes nothing to the cleaned text. */
  lemma CleanIgnoresTrimStart(s: string)
    ensures Clean(TrimStart(s)) == Clean(s)
  {
    TrimStartSplits(s);
    var t := TrimStart(s);
    var lead := s[..|s| - |t|];
    CleanOfSpaces(lead);
    CleanConcat(lead, t);
  }

  /** Trailing whitespace contributes nothing to the cleaned text. */
  lemma CleanIgnoresTrimEnd(s: string)
    ensures Clean(TrimEnd(s)) == Clean(s)
  {
    TrimEndSplits(s);
    var u := TrimEnd(s);
    var trail := s[|u|..];
    CleanOfSpaces(trail);
    CleanConcat(u, trail);
  }

  /** Trimming the price text before cleaning it makes no difference. */
  lemma CleanIgnoresTrim(s: string)
    ensures Clean(Trim(s)) == Clean(s)
  {
    CleanIgnoresTrimStart(s);
    CleanIgnoresTrimEnd(TrimStart(s));
  }

  /** `parseFloat(text.replace(/[^0-9.]/g, ''))`; `None` stands for `NaN`. */
  function ReadPrice(text: string): Option<real> {
    ParseFloat(Clean(text))
  }

  /** The cleaned text is read as the decimal literal it starts with, which keeps its digits. */
  lemma ReadPriceScans(text: string)
    ensures ReadPrice(text) == ValueOf(ScanDecimal(Clean(text)))
  {
    var t := Clean(text);
    if |t| > 0 {
      ParseFloatUnsigned(t);
    }
  }

  /** A price is `NaN` exactly when the cleaned text has no digit before a second
      dot: it is empty, is `"."`, or starts with `".."`. */
  lemma ReadPriceNanIff(text: string)
    ensures var t := Clean(text);
            ReadPrice(text).None? <==> |t| == 0 || (t[0] == '.' && (|t| == 1 || t[1] == '.'))
  {
    ReadPriceScans(text);
    ScanDecimalSpec(Clean(text));
  }

  /** A read price is never negative: the minus sign is deleted by the cleaning. */
  lemma ReadPriceNonNegative(text: string)
    ensures ReadPrice(text).Some? ==> ReadPrice(text).value >= 0.0
  {
    ReadPriceScans(text);
  }
}
