/** The single-product run: read the baseline from a text file (creating it
    with the initial price when it is missing), read one price from a page,
    and on a drop send one alert and write the new price back. */
module SingleProduct {
  import opened Wrappers
  import opened Chars
  import opened Decimals
  import opened PriceText
  import opened DropRule

  /** The baseline assumed, and written, when no baseline file exists yet. */
  const InitialPrice: real := 1.0
  /** `INITIAL_PRICE.toString()`. */
  const InitialPriceText := "1"

  /** The baseline file as the run finds it: absent, present but unreadable for
      another reason than absence, or holding some text. */
  datatype BaselineFile = Missing | Unreadable | Contents(text: string)

  /** Outcome of reading the baseline: the price and the file afterwards, or an
      error that escapes and ends the run. */
  datatype FileRead = Baseline(price: Option<real>, file: BaselineFile) | ReadThrew

  /** What the browser produced for the product page: navigation failed (outside
      the `try`, so the run ends), the selector wait or read failed (inside it),
      or the element's text. */
  datatype PageRead = GotoFailed | SelectorFailed | Loaded(text: string)

  /** Outcome of fetching the price: the parsed decimal (`None` for `null` or
      `NaN`), or an escaping error. */
  datatype Fetched = Fetched(price: Option<Decimal>) | FetchThrew

  /** Everything a run does that outlives it: the alerts sent, the baseline
      file left behind, and whether the run reached its end. */
  datatype RunResult = RunResult(alerts: seq<Alert>, file: BaselineFile, completed: bool)

  /** The baseline a run finds in a file it can read. */
  function StoredBaseline(f: BaselineFile): Option<real>
    requires !f.Unreadable?
  {
    match f
    case Missing => Some(InitialPrice)
    case Contents(s) => ParseFloat(s)
  }

  /** The created file reads back as the initial price. */
  lemma InitialTextReadsBack()
    ensures ParseFloat(InitialPriceText) == Some(InitialPrice)
  {
    var d := InitialDecimal();
    ParseFormat(d);
  }

  /** The literal `1` as a decimal. */
  function InitialDecimal(): (d: Decimal)
    ensures d.Valid() && Format(d) == InitialPriceText && Value(d) == InitialPrice
  {
    assert "1"[..0] == "";
    Decimal("1", "")
  }

  /** `getPriceFromFile`: parse an existing file, create a missing one with the
      initial price, rethrow any other error. */
  function GetPriceFromFile(f: BaselineFile): (r: FileRead)
    ensures r.ReadThrew? <==> f.Unreadable?
    ensures f.Missing? ==> r.price == Some(InitialPrice) && r.file == Contents(InitialPriceText)
    ensures f.Contents? ==> r.file == f
    ensures r.Baseline? ==> r.file.Contents? && ParseFloat(r.file.text) == r.price
    ensures r.Baseline? ==> r.price == StoredBaseline(f)
  {
    match f
    case Missing =>
      InitialTextReadsBack();
      Baseline(Some(InitialPrice), Contents(InitialPriceText))
    case Unreadable => ReadThrew
    case Contents(s) => Baseline(ParseFloat(s), f)
  }

  /** `updatePriceInFile`: the file holds `price.toString()` afterwards, which
      reads back as the same price. */
  function UpdatePriceInFile(price: Decimal): (f: BaselineFile)
    ensures f.Contents? && ParseFloat(f.text) == Some(Value(price))
  {
    ParseFormatCanonical(price);
    Contents(Format(Canonical(price)))
  }

  /** `fetchPrice`: a navigation error escapes, a selector error gives `null`,
      page text gives `parseFloat` of the cleaned text. */
  function FetchPrice(read: PageRead): (r: Fetched)
    ensures r.FetchThrew? <==> read.GotoFailed?
    ensures read.SelectorFailed? ==> r == Fetched(None)
    ensures read.Loaded? ==> ValueOf(r.price) == ReadPrice(read.text)
  {
    match read
    case GotoFailed => FetchThrew
    case SelectorFailed => Fetched(None)
    case Loaded(text) =>
      ReadPriceScans(text);
      Fetched(ScanDecimal(Clean(text)))
  }

  /** The price a run observes: `None` when it observed none. */
  function Observed(read: PageRead): Option<real> {
    match FetchPrice(read)
    case FetchThrew => None
    case Fetched(p) => ValueOf(p)
  }

  /** One invocation of the script for the product at `url`. */
  function RunOnce(url: string, f: BaselineFile, read: PageRead): (r: RunResult)
    ensures |r.alerts| <= 1
    ensures r.file.Unreadable? <==> f.Unreadable?
    ensures f.Unreadable? ==> r == RunResult([], f, false)
    ensures r.completed <==> !f.Unreadable? && !read.GotoFailed?
  {
    match GetPriceFromFile(f)
    case ReadThrew => RunResult([], f, false)
    case Baseline(starting, file) =>
      match FetchPrice(read)
      case FetchThrew => RunResult([], file, false)
      case Fetched(price) =>
        var current := ValueOf(price);
        if price.Some? && IsDrop(current, starting) then
          RunResult([Alert(PriceDropSubject, url, current, starting)], UpdatePriceInFile(price.value), true)
        else
          RunResult([], file, true)
  }

  /** A run sends one price-drop alert exactly when the observed price is
      truthy and below the stored baseline, and then the file reads back as
      that price; otherwise nothing is sent and the file keeps its baseline
      (a missing file is only created with the initial price). */
  lemma RunOnceDecides(url: string, f: BaselineFile, read: PageRead)
    requires !f.Unreadable?
    ensures var r := RunOnce(url, f, read);
            var b := StoredBaseline(f);
            var p := Observed(read);
            && (|r.alerts| == 1 <==> IsDrop(p, b))
            && (IsDrop(p, b) ==>
                  r.alerts == [Alert(PriceDropSubject, url, p, b)] && r.file.Contents? && ParseFloat(r.file.text) == p)
            && (!IsDrop(p, b) ==> r.file == (if f.Missing? then Contents(InitialPriceText) else f))
            && StoredBaseline(r.file) == NextBaseline(b, p)
  {
    InitialTextReadsBack();
  }

  /** A price text that cleans to nothing, to `"."` or to something starting
      with `".."` reads as `NaN`: no alert, and the baseline file is not written. */
  lemma NanTextNeverAlerts(url: string, f: BaselineFile, text: string)
    requires !f.Unreadable?
    requires var t := Clean(text); |t| == 0 || (t[0] == '.' && (|t| == 1 || t[1] == '.'))
    ensures RunOnce(url, f, Loaded(text)).alerts == []
    ensures RunOnce(url, f, Loaded(text)).file == (if f.Missing? then Contents(InitialPriceText) else f)
  {
    ReadPriceNanIff(text);
    assert Observed(Loaded(text)).None?;
  }

  /** The script run once per scheduled invocation, each time observing a new page. */
  function RunMany(url: string, f: BaselineFile, pages: seq<PageRead>): (g: BaselineFile)
    ensures g.Unreadable? <==> f.Unreadable?
    decreases |pages|
  {
    if |pages| == 0 then f else RunMany(url, RunOnce(url, f, pages[0]).file, pages[1..])
  }

  /** The prices a series of runs observes, in order. */
  function Observations(pages: seq<PageRead>): (ps: seq<Option<real>>)
    ensures |ps| == |pages|
    decreases |pages|
  {
    if |pages| == 0 then [] else [Observed(pages[0])] + Observations(pages[1..])
  }

  /** One run moves the stored baseline by the drop rule. */
  lemma RunOnceStep(url: string, f: BaselineFile, page: PageRead)
    requires !f.Unreadable?
    ensures StoredBaseline(RunOnce(url, f, page).file) == NextBaseline(StoredBaseline(f), Observed(page))
  {
    RunOnceDecides(url, f, page);
  }

  /** Over any series of runs the file's baseline evolves by the drop rule alone. */
  lemma {:induction false} RunManyTracks(url: string, f: BaselineFile, pages: seq<PageRead>)
    requires !f.Unreadable?
    ensures StoredBaseline(RunMany(url, f, pages)) == Track(StoredBaseline(f), Observations(pages))
    decreases |pages|
  {
    if |pages| > 0 {
      var next := RunOnce(url, f, pages[0]).file;
      RunOnceStep(url, f, pages[0]);
      RunManyTracks(url, next, pages[1..]);
    }
  }

  /** Starting from no file, the stored baseline after any series of runs is the
      lowest of 1 and every truthy price observed: it never increases. */
  lemma FromMissingFileKeepsLowest(url: string, pages: seq<PageRead>)
    ensures var b := StoredBaseline(RunMany(url, Missing, pages));
            b.Some? && IsLowestSeen(b.value, InitialPrice, Observations(pages))
  {
    RunManyTracks(url, Missing, pages);
    TrackIsLowestSeen(InitialPrice, Observations(pages));
  }
}
