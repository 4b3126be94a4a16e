/** The low-stock check: `text.match(/Only (\d+) left/)`, `parseInt` of the
    captured digits, and the `remaining <= 1` alert condition. */
module StockCheck {
  import opened Wrappers
  import opened Chars

  const Prefix := "Only "
  const Suffix := " left"
  /** What follows the count in the low-stock subject. */
  const AmountLeft := " amount left!"

  /** The regular expression tried at position `i` of the text. Because `\d+`
      is greedy and the suffix starts with a space, the only digit run that can
      succeed is the maximal one. */
  function MatchAt(text: string, i: nat): Option<nat>
    requires i <= |text|
  {
    if !(Prefix <= text[i..]) then None
    else
      var digits := LeadingDigits(text[i + |Prefix|..]);
      if |digits| > 0 && Suffix <= text[i + |Prefix| + |digits|..] then Some(DigitsValue(digits))
      else None
  }

  /** The position of the leftmost match at or after `i`, or `|text| + 1` when there is none. */
  function FirstMatch(text: string, i: nat): (j: nat)
    requires i <= |text|
    ensures i <= j <= |text| + 1
    ensures j <= |text| ==> MatchAt(text, j).Some?
    ensures forall k | i <= k < j && k <= |text| :: MatchAt(text, k).None?
    decreases |text| - i
  {
    if MatchAt(text, i).Some? then i
    else if i == |text| then |text| + 1
    else FirstMatch(text, i + 1)
  }

  /** The count of remaining items the page announces, taken from the leftmost
      match, or `None` (JavaScript `null`) when the phrase is absent. */
  function ExtractRemaining(text: string): (r: Option<nat>)
    ensures r.None? <==> forall j | 0 <= j <= |text| :: MatchAt(text, j).None?
    ensures r.Some? ==> exists j | 0 <= j <= |text| ::
                          r == MatchAt(text, j) && forall k | 0 <= k < j :: MatchAt(text, k).None?
  {
    var j := FirstMatch(text, 0);
    if j <= |text| then MatchAt(text, j) else None
  }

  /** `remainingItemsNum <= 1`, where a `null` count coerces to 0 and so also
      counts as low stock. */
  predicate LowStock(remaining: Option<nat>) {
    match remaining
    case None => true
    case Some(n) => n <= 1
  }

  /** `Only ${remainingItemsNum} amount left!`, where `null` prints as `null`. */
  function LowStockSubject(remaining: Option<nat>): (s: string)
    ensures Prefix <= s
    ensures remaining.None? ==> s == "Only null amount left!"
    ensures remaining.Some? ==>
              && LeadingDigits(s[|Prefix|..]) == NatToDigits(remaining.value)
              && s[|Prefix| + |NatToDigits(remaining.value)|..] == AmountLeft
  {
    match remaining
    case None => Prefix + "null" + AmountLeft
    case Some(n) =>
      var count := NatToDigits(n);
      var s := Prefix + count + AmountLeft;
      assert s[|Prefix|..] == count + AmountLeft;
      LeadingDigitsOfRun(count, AmountLeft);
      s
  }

  /** The phrase `Only D left` for a digit run `D` is matched where it stands,
      and the match reports the number `D` spells, leading zeros and all. */
  lemma MatchAtPhrase(text: string, i: nat, digits: Digits)
    requires i <= |text| && |digits| > 0
    requires Prefix + digits + Suffix <= text[i..]
    ensures MatchAt(text, i) == Some(DigitsValue(digits))
  {
    PhraseParts(text, i, digits);
  }

  /** The phrase splits into the prefix, a maximal digit run and the suffix. */
  lemma PhraseParts(text: string, i: nat, digits: Digits)
    requires i <= |text| && |digits| > 0
    requires Prefix + digits + Suffix <= text[i..]
    ensures Prefix <= text[i..]
    ensures LeadingDigits(text[i + |Prefix|..]) == digits
    ensures Suffix <= text[i + |Prefix| + |digits|..]
  {
    var t := text[i..];
    var n := |Prefix| + |digits| + |Suffix|;
    var after := Suffix + t[n..];
    assert t == Prefix + digits + after;
    assert text[i + |Prefix|..] == digits + after;
    assert after[0] == ' ';
    LeadingDigitsOfRun(digits, after);
  }

  /** A text that contains the phrase somewhere always yields a count. */
  lemma PhraseFound(text: string, i: nat, digits: Digits)
    requires i <= |text| && |digits| > 0
    requires Prefix + digits + Suffix <= text[i..]
    ensures ExtractRemaining(text).Some?
  {
    MatchAtPhrase(text, i, digits);
  }

  /** A text that starts with the phrase yields its number, whatever follows. */
  lemma ExtractLeadingPhrase(digits: Digits, rest: string)
    requires |digits| > 0
    ensures ExtractRemaining(Prefix + digits + Suffix + rest) == Some(DigitsValue(digits))
  {
    var text := Prefix + digits + Suffix + rest;
    assert Prefix + digits + Suffix <= text[0..];
    MatchAtPhrase(text, 0, digits);
  }

}
