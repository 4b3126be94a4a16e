# Price-drop alerter: a Dafny model of its decision logic

The alerter checks a retail product page, compares the price it finds with a
stored baseline, and e-mails an alert when the price has dropped or stock is
low. It comes in two variants:

- `main.js` tracks one product. The baseline lives in a text file that is
  created with the price `1` when it is missing.
- `main.mjs` walks a list of products. Each product has its own baseline
  (`startingPrice`) and optionally a stock selector. The list is written back
  after the pass.

Around the browser and mail calls sits a small amount of sequential logic.
This project lifts it out into pure functions and proves what it guarantees:

- **Price text** (`PriceText`, `Decimals`). The regular-expression replace
  keeps only digits and dots. `parseFloat` then reads the longest leading
  decimal literal; `None` stands for `NaN`. Prices are exact `real`s.
  `toString` is modelled as the spelling with no redundant digits (`0`
  before the point when the integer part is zero), which `parseFloat` reads
  back as the same value.
- **Drop rule** (`DropRule`). A price counts as a drop only when it is
  truthy (not `null`, `NaN` or `0`) and strictly below the baseline. Only
  then is an alert sent and the baseline replaced. Over any series of runs,
  the baseline is the lowest of its initial value and every truthy price
  seen.
- **Stock check** (`StockCheck`). `/Only (\d+) left/` yields the leftmost
  count, or `null`. The check `remaining <= 1` also fires on `null`, because
  JavaScript coerces `null` to `0`.
- **Single-product run** (`SingleProduct`). This models the baseline file,
  the page read and one invocation of `main.js`, and proves properties over
  any series of invocations.
- **Multi-product pass** (`MultiProduct`). This is the per-product body of
  `fetchCurrentPrices` and the whole pass. A product whose page fails keeps
  its baseline. The written list has the same shape as the list read.

Every browser read is an input: the page text, or which step failed. Every
file read is an input too: the file's text, absent, or unreadable. Alerts are
output events that record the subject, the URL and the two prices.

Points where the code behaves in ways that are easy to misread:

- In `main.js` a navigation failure is outside the `try` block
  (`main.js:42`). It does not yield `null`; it ends the run. By then a
  missing baseline file has already been created.
- The stock phrase is matched by a regular expression, not a substring
  search. The count is the maximal digit run, and leading zeros are allowed.
- A falsy price (`null`, `NaN` or `0`) never counts as a drop, whatever the
  baseline.
- A baseline file whose text reads as `NaN` never compares below anything.
  The alerter then stays silent for good (`DropRule.NanBaselineSticks`).

## Model

| member | source | states |
|---|---|---|
| `PriceText.Clean` | main.js:55 | the cleaned text is no longer than the input and holds only `0`-`9` and `.` |
| `PriceText.CleanPriceText` | main.js:55 | the left-to-right scan of the global replace produces exactly the filtered text |
| `PriceText.CleanConcat` | main.js:55 | cleaning distributes over concatenation, so the kept characters keep their original order |
| `PriceText.CleanFixpoint` | main.js:55 | cleaning leaves a text unchanged if and only if it consists only of digits and dots |
| `PriceText.CleanIdempotent` | main.js:55 | cleaning the cleaned text again changes nothing |
| `PriceText.CleanCounts` | main.js:55 | each digit and dot survives exactly as often as it occurs in the input; no other character survives |
| `PriceText.CleanIgnoresTrim` | main.mjs:53-60 | trimming the price text before cleaning it makes no difference |
| `PriceText.CleanIgnoresTrimStart` | main.mjs:54 | leading whitespace contributes nothing to the cleaned text |
| `PriceText.CleanIgnoresTrimEnd` | main.mjs:54 | trailing whitespace contributes nothing to the cleaned text |
| `PriceText.ReadPrice` | main.js:55 | the price a page text shows: `parseFloat` of the text with every character outside `[0-9.]` deleted |
| `PriceText.ReadPriceScans` | main.js:55 | `parseFloat` of the cleaned text is the value of the decimal literal it starts with (no whitespace or sign can remain) |
| `PriceText.ReadPriceNanIff` | main.js:55 | the price is `NaN` if and only if the cleaned text is empty, is `"."`, or starts with `".."`, i.e. has no digit before a second dot |
| `PriceText.ReadPriceNonNegative` | main.js:55 | a price read from page text is never negative, since the minus sign is deleted |
| `Chars.Trim` | main.mjs:54 | `trim`: the JavaScript whitespace removed from both ends |
| `Chars.TrimStartSplits` | main.mjs:54 | trimming the start removes exactly a leading whitespace run and stops at the first other character |
| `Chars.TrimEndSplits` | main.mjs:54 | trimming the end removes exactly a trailing whitespace run and stops at the last other character |
| `Chars.NatToDigits` | main.mjs:80 | an integer is printed with no leading zero, and the digits denote the same integer |
| `Decimals.ScanDecimal` | main.js:55 | the number `parseFloat` finds at the start of a text of digits and dots: a digit run, then a dot and digits if they follow, or a dot and digits alone |
| `Decimals.ScanDecimalLongest` | main.js:55 | the literal read is the longest one: every decimal whose text starts the input is found, and its text is a prefix of the literal read, so `"5.7"` reads as 5.7, not 5 |
| `Decimals.ScanDecimalSpec` | main.js:55 | `parseFloat` finds a number exactly when the text starts with a digit, or a dot then a digit; the literal read is a prefix that no further digit could extend |
| `Decimals.StripTrailingZeros` | main.js:81 | dropping trailing fraction zeros keeps a prefix whose value is unchanged and leaves no trailing zero |
| `Decimals.Canonical` | main.js:81 | the `toString` spelling has the same value, a non-empty integer part (`0` for a value below 1) with no leading zero, and no trailing zero in the fraction |
| `Decimals.Format` | main.js:81 | the text of a decimal: its integer digits, then a dot and its fraction digits only when there is a fraction |
| `Decimals.ParseFloat` | main.js:69 | `parseFloat` of arbitrary text: leading whitespace skipped, an optional `-` or `+`, then the longest literal; `NaN` when none |
| `Decimals.ScanFormat` | main.js:69 | scanning the text of a decimal gives back that decimal |
| `Decimals.ParseFormat` | main.js:69 | `parseFloat` reads the text of a decimal as its value |
| `Decimals.ParseFormatCanonical` | main.js:66-82 | a price written with `toString` reads back with `parseFloat` as the same price |
| `DropRule.Truthy` | main.js:96 | JavaScript truthiness of a price: `null`, `NaN` and `0` are falsy, every other number is truthy |
| `DropRule.IsDrop` | main.mjs:85 | `currentPrice && currentPrice < startingPrice`: a truthy price strictly below a baseline that is a number |
| `DropRule.NextBaseline` | main.js:96-105 | the baseline changes if and only if the price is a drop, and then becomes that price; it never increases; a `NaN` baseline stays `NaN`; a `null`, `NaN` or `0` price leaves it alone |
| `DropRule.TrackIsLowestSeen` | main.js:96-101 | after any series of runs, the baseline is the lowest of its initial value and every truthy price observed |
| `DropRule.NanBaselineSticks` | main.js:96-105 | a baseline that reads as `NaN` is never replaced by any series of observations |
| `SingleProduct.InitialTextReadsBack` | main.js:73-74 | the text written for a missing file reads back as the initial price 1 |
| `SingleProduct.GetPriceFromFile` | main.js:66-78 | a missing file yields baseline 1 and a file holding `1`; an unreadable file ends the run; in every non-error case the file afterwards reads back as the baseline returned |
| `SingleProduct.UpdatePriceInFile` | main.js:80-82 | the written file reads back as exactly the written price |
| `SingleProduct.FetchPrice` | main.js:39-64 | a navigation failure escapes; a selector failure gives `null`; page text gives `parseFloat` of its cleaned text |
| `SingleProduct.RunOnce` | main.js:84-106 | a run sends at most one alert; an unreadable baseline file ends it with nothing sent or written; the run reaches its end exactly when the file is readable and navigation succeeds |
| `SingleProduct.RunOnceDecides` | main.js:96-105 | exactly one alert, with the drop subject and both prices, is sent if and only if the price is truthy and below the stored baseline; the file then reads back as the new price; otherwise the file keeps its baseline; the stored baseline follows the drop rule |
| `SingleProduct.RunOnceStep` | main.js:96-105 | one run moves the stored baseline by the drop rule |
| `SingleProduct.NanTextNeverAlerts` | main.js:55-105 | price text that cleans to nothing, to `"."` or to a text starting with `".."` sends no alert and writes no baseline |
| `SingleProduct.RunManyTracks` | main.js:90-105 | over any series of runs, the file's baseline evolves by the drop rule alone |
| `SingleProduct.FromMissingFileKeepsLowest` | main.js:71-101 | starting with no file, the stored baseline after any series of runs is the lowest of 1 and every truthy price observed |
| `StockCheck.MatchAt` | main.mjs:69 | the pattern tried at one position: `Only `, the maximal digit run (non-empty), then ` left` |
| `StockCheck.FirstMatch` | main.mjs:69 | the position found is the leftmost one where the pattern matches; no match lies before it |
| `StockCheck.ExtractRemaining` | main.mjs:69-71 | the count is `null` if and only if the pattern matches nowhere; otherwise it is the count of the leftmost match |
| `StockCheck.MatchAtPhrase` | main.mjs:69-71 | `Only D left`, for a digit run `D`, matches where it stands and reports the number `D` spells |
| `StockCheck.PhraseParts` | main.mjs:69 | the phrase splits into the prefix, a maximal digit run and the suffix |
| `StockCheck.PhraseFound` | main.mjs:69-71 | a text containing the phrase anywhere yields a count, not `null` |
| `StockCheck.ExtractLeadingPhrase` | main.mjs:69-71 | a text that starts with the phrase yields its number, whatever follows |
| `StockCheck.LowStock` | main.mjs:75 | `remainingItemsNum <= 1`, which holds for a `null` count because `null` compares as 0 |
| `StockCheck.LowStockSubject` | main.mjs:80 | the subject is `Only `, then the count as JavaScript prints it (its digits read back as the count), then ` amount left!`; with no count it is `Only null amount left!` |
| `MultiProduct.CurrentPriceIgnoresTrim` | main.mjs:53-60 | the price read from the trimmed element text is the price of the untrimmed text: trimming changes nothing |
| `MultiProduct.ChecksStock` | main.mjs:63 | `product?.remainingProductsDomSelector` is truthy: present and not the empty string |
| `MultiProduct.Completed` | main.mjs:45-67 | nothing in the `try` block threw: the page loaded, and the stock element was read whenever the product names one |
| `MultiProduct.DropAlertIsNotLowStock` | main.mjs:80-92 | a price-drop alert is never taken for a low-stock alert |
| `MultiProduct.StockAlerts` | main.mjs:63-83 | a processed page sends at most one low-stock alert |
| `MultiProduct.ProcessProduct` | main.mjs:45-104 | only `startingPrice` may change and it never increases; a page whose navigation, selector wait or stock read throws leaves the product as it was and sends nothing |
| `MultiProduct.BaselineUpdateIff` | main.mjs:85-99 | `startingPrice` changes if and only if the page was processed and its price is truthy and below the old value; it then becomes that price; a price of 0 changes nothing |
| `MultiProduct.DropAlertIff` | main.mjs:75-95 | a drop alert is the last alert sent exactly when the baseline is lowered; it carries the product URL, the page's price and the old `startingPrice`; any alert before it is a low-stock alert |
| `MultiProduct.LowStockAlertIff` | main.mjs:63-83 | a low-stock alert is sent if and only if the page was processed, the product names a non-empty stock selector, and the phrase is absent or gives at most 1; the price plays no part; it is the first and only low-stock alert, with subject `Only <count> amount left!`, the product URL, the page's price and `startingPrice` |
| `MultiProduct.Collect` | main.mjs:109-112 | the written list holds one entry per product, in order: each product's entry after its own processing |
| `MultiProduct.FetchCurrentPrices` | main.mjs:36-117 | the written list has the input's length, and entry `i` is product `i` after processing on its own page |
| `MultiProduct.PassKeepsShape` | main.mjs:39-112 | the written list keeps the length, order and every non-price field; no `startingPrice` increases |
| `MultiProduct.FailedProductSkipped` | main.mjs:100-104 | a product whose page fails keeps its entry; every other product's written entry is as before |
| `MultiProduct.CollectConcat` | main.mjs:39-112 | the pass over two runs of products sends the first run's alerts, then the second's |
| `MultiProduct.FailedProductSilent` | main.mjs:100-104 | a product whose page fails sends no alert; the pass sends exactly the alerts the products before and after it send on their own |
| `MultiProduct.RunPass` | main.mjs:39-105 | the loop over the products produces the pass's alerts in order and its written list; no baseline goes up |

## Left out

- The browser (launch, page, navigation, selector waits, `$eval`, close) and
  its timeouts. Each page read is an input: the text, or the step that
  failed. The browser is not closed when `main.js` navigation fails
  (`main.js:42`). This resource leak is not modelled. In `main.mjs`,
  `browser.newPage()` (`main.mjs:40`) and `page.close()` (`main.mjs:103`)
  are outside the `catch`: a failure in either ends the pass before
  `products.json` is written (`main.mjs:110-112`). The model assumes both
  succeed.
- Sending mail. An alert is recorded with its subject, URL and the two
  prices. The e-mail body, the `Saved` subtraction and the credentials are
  left out. A failed send is caught and logged by the sender, so it has no
  effect on the model.
- File and JSON I/O. The baseline file is `Missing`, `Unreadable` or
  `Contents(text)`. Writes are assumed to succeed; a rejected `writeFile`
  would end the `main.js` run. `products.json` is a `seq<Product>` whose
  `startingPrice` is a JSON number. Other JSON values there (strings,
  `null`) are not modelled. Neither is a failed final write, which
  `main.mjs` catches and logs. Environment-variable loading is left out: the
  URL is a parameter.
- Floating point. Prices are exact reals. `parseFloat` is modelled without
  exponents and without `Infinity`. `toString` is modelled without exponent
  notation, which JavaScript uses at 1e21 and above and below 1e-6.
  `parseInt` loses no precision above 2^53 here.
- SingleProduct.UpdatePriceInFile: takes the price as the decimal literal it
  was parsed from. This is the only kind of price that is ever written.
- Console logging, colouring and timestamps.
- Two runs racing on the same file.
- The coupon checker, which scans a promotions page for tracked product
  links. It is not part of this model: neither modelled file contains it.
