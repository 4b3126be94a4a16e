/** The multi-product pass: each tracked product's page is read once, a
    low-stock alert and a price-drop alert may be sent, the product's baseline
    may be lowered, and the whole list is written back at the end. */
module MultiProduct {
  import opened Wrappers
  import opened Chars
  import opened PriceText
  import opened DropRule
  import opened StockCheck

  /** One entry of the product list. `startingPrice` is the only field the pass changes. */
  datatype Product = Product(
    url: string,
    selector: string,
    productName: string,
    startingPrice: real,
    remainingProductsDomSelector: Option<string>)

  /** What reading the optional stock element produced. */
  datatype StockRead = StockText(text: string) | StockReadFailed

  /** What the browser produced for one product: navigation failed, the price
      selector wait or read failed, or the price element's text together with the
      stock element's read (consulted only when the product names a stock selector). */
  datatype ProductPage = NavigationFailed | SelectorFailed | Loaded(priceText: string, stock: StockRead)

  /** The alerts sent for one product and the product as it is afterwards. */
  datatype Outcome = Outcome(alerts: seq<Alert>, product: Product)

  /** The alerts of a whole pass and the list written back. */
  datatype PassResult = PassResult(alerts: seq<Alert>, products: seq<Product>)

  /** `product?.remainingProductsDomSelector` is truthy: present and not the empty string. */
  predicate ChecksStock(p: Product) {
    p.remainingProductsDomSelector.Some? && p.remainingProductsDomSelector.value != ""
  }

  /** The page was processed to the end: nothing in the `try` block threw. */
  predicate Completed(p: Product, page: ProductPage) {
    page.Loaded? && !(ChecksStock(p) && page.stock.StockReadFailed?)
  }

  /** The price the page shows: `parseFloat` of the trimmed, cleaned text. */
  function CurrentPrice(page: ProductPage): Option<real>
    requires page.Loaded?
  {
    ReadPrice(Trim(page.priceText))
  }

  /** Trimming the element's text before reading the price changes nothing,
      since cleaning drops the whitespace anyway. */
  lemma CurrentPriceIgnoresTrim(page: ProductPage)
    requires page.Loaded?
    ensures CurrentPrice(page) == ReadPrice(page.priceText)
  {
    CleanIgnoresTrim(page.priceText);
  }

  predicate IsLowStockAlert(a: Alert) {
    Prefix <= a.subject
  }

  /** The two kinds of alert are told apart by their subjects. */
  lemma DropAlertIsNotLowStock(a: Alert)
    ensures a.subject == PriceDropSubject ==> !IsLowStockAlert(a)
  {
    if a.subject == PriceDropSubject {
      assert a.subject[0] == 'P' && Prefix[0] == 'O';
    }
  }

  /** The low-stock alert of a processed page: sent when the product names a
      stock selector and the count is `null` or at most one. */
  function StockAlerts(p: Product, page: ProductPage): (alerts: seq<Alert>)
    requires page.Loaded?
    requires ChecksStock(p) ==> page.stock.StockText?
    ensures |alerts| <= 1
    ensures forall i | 0 <= i < |alerts| :: IsLowStockAlert(alerts[i])
  {
    if ChecksStock(p) then
      var remaining := ExtractRemaining(page.stock.text);
      if LowStock(remaining)
      then [Alert(LowStockSubject(remaining), p.url, CurrentPrice(page), Some(p.startingPrice))]
      else []
    else []
  }

  /** The loop body of `fetchCurrentPrices` for one product. */
  function ProcessProduct(p: Product, page: ProductPage): (o: Outcome)
    ensures o.product == p.(startingPrice := o.product.startingPrice)
    ensures o.product.startingPrice <= p.startingPrice
    ensures !Completed(p, page) ==> o == Outcome([], p)
    ensures |o.alerts| <= 2
  {
    if !Completed(p, page) then Outcome([], p)
    else
      var current := CurrentPrice(page);
      var stockAlerts := StockAlerts(p, page);
      if IsDrop(current, Some(p.startingPrice)) then
        Outcome(stockAlerts + [Alert(PriceDropSubject, p.url, current, Some(p.startingPrice))],
                p.(startingPrice := current.value))
      else Outcome(stockAlerts, p)
  }

  /** The baseline becomes the page's price exactly when the page was processed
      and its price is truthy and below the old baseline; a price of 0 never counts. */
  lemma BaselineUpdateIff(p: Product, page: ProductPage)
    ensures var o := ProcessProduct(p, page);
            && (o.product.startingPrice != p.startingPrice <==>
                  Completed(p, page) && IsDrop(CurrentPrice(page), Some(p.startingPrice)))
            && (o.product.startingPrice != p.startingPrice ==> Some(o.product.startingPrice) == CurrentPrice(page))
            && (Completed(p, page) && CurrentPrice(page) == Some(0.0) ==> o.product == p)
  {
  }

  /** A price-drop alert is sent exactly when the baseline is lowered, and it
      comes after any low-stock alert; without a drop only the low-stock alert
      can be sent. It carries the product's URL, the page's
      price and the baseline before the drop. */
  lemma DropAlertIff(p: Product, page: ProductPage)
    ensures var o := ProcessProduct(p, page);
            && (o.product.startingPrice < p.startingPrice <==>
                  |o.alerts| > 0 && o.alerts[|o.alerts| - 1].subject == PriceDropSubject)
            && (o.product.startingPrice < p.startingPrice ==>
                  o.alerts[|o.alerts| - 1] == Alert(PriceDropSubject, p.url, CurrentPrice(page), Some(p.startingPrice)))
            && (forall i | 0 <= i < |o.alerts| - 1 :: IsLowStockAlert(o.alerts[i]))
            && (o.product.startingPrice == p.startingPrice ==>
                  forall i | 0 <= i < |o.alerts| :: IsLowStockAlert(o.alerts[i]))
  {
    var o := ProcessProduct(p, page);
    if Completed(p, page) {
      var stock := StockAlerts(p, page);
      if IsDrop(CurrentPrice(page), Some(p.startingPrice)) {
        assert o.alerts[..|o.alerts| - 1] == stock;
      } else {
        assert o.alerts == stock;
        if |stock| > 0 {
          assert IsLowStockAlert(stock[|stock| - 1]);
          DropAlertIsNotLowStock(stock[|stock| - 1]);
        }
      }
    }
  }

  /** A low-stock alert is sent exactly when the product names a stock selector,
      the page was processed, and the stock text has no `Only N left` phrase or
      announces at most one item. The price plays no part in it. It is the only
      low-stock alert, it comes first, and it carries the count's subject, the
      product's URL, the page's price and the baseline. */
  lemma LowStockAlertIff(p: Product, page: ProductPage)
    ensures var o := ProcessProduct(p, page);
            && ((exists i | 0 <= i < |o.alerts| :: IsLowStockAlert(o.alerts[i])) <==>
                  Completed(p, page) && ChecksStock(p) && LowStock(ExtractRemaining(page.stock.text)))
            && (Completed(p, page) && ChecksStock(p) && LowStock(ExtractRemaining(page.stock.text)) ==>
                  |o.alerts| > 0 &&
                  o.alerts[0] == Alert(LowStockSubject(ExtractRemaining(page.stock.text)), p.url,
                                       CurrentPrice(page), Some(p.startingPrice)))
            && forall i | 1 <= i < |o.alerts| :: !IsLowStockAlert(o.alerts[i])
  {
    var o := ProcessProduct(p, page);
    if Completed(p, page) {
      var stock := StockAlerts(p, page);
      assert o.alerts == stock || o.alerts == stock + [o.alerts[|o.alerts| - 1]];
      if o.alerts != stock {
        DropAlertIsNotLowStock(o.alerts[|o.alerts| - 1]);
      }
      if ChecksStock(p) && LowStock(ExtractRemaining(page.stock.text)) {
        assert IsLowStockAlert(o.alerts[0]);
      }
    }
  }

  /** The pass's outputs from the per-product outcomes, in product order: every
      alert in the order sent, and the list of products as written back. */
  function Collect(outcomes: seq<Outcome>): (r: PassResult)
    ensures |r.products| == |outcomes|
    ensures forall i | 0 <= i < |outcomes| :: r.products[i] == outcomes[i].product
    decreases |outcomes|
  {
    if |outcomes| == 0 then PassResult([], [])
    else
      var n := |outcomes| - 1;
      var before := Collect(outcomes[..n]);
      PassResult(before.alerts + outcomes[n].alerts, before.products + [outcomes[n].product])
  }

  /** Each product's outcome on its own page, in product order. */
  function Outcomes(products: seq<Product>, pages: seq<ProductPage>): (os: seq<Outcome>)
    requires |pages| == |products|
    ensures |os| == |products|
    ensures forall i | 0 <= i < |products| :: os[i] == ProcessProduct(products[i], pages[i])
  {
    seq(|products|, i requires 0 <= i < |products| => ProcessProduct(products[i], pages[i]))
  }

  /** `fetchCurrentPrices`: each product is processed on its own page, one after
      the other, and the list is written back in full. */
  function FetchCurrentPrices(products: seq<Product>, pages: seq<ProductPage>): (r: PassResult)
    requires |pages| == |products|
    ensures |r.products| == |products|
    ensures forall i | 0 <= i < |products| :: r.products[i] == ProcessProduct(products[i], pages[i]).product
  {
    Collect(seq(|products|, i requires 0 <= i < |products| => ProcessProduct(products[i], pages[i])))
  }

  /** The written list has the same length and order as the one read, every
      field but `startingPrice` is unchanged, and no baseline goes up. */
  lemma PassKeepsShape(products: seq<Product>, pages: seq<ProductPage>)
    requires |pages| == |products|
    ensures var r := FetchCurrentPrices(products, pages);
            && |r.products| == |products|
            && forall i | 0 <= i < |products| ::
                 && r.products[i] == products[i].(startingPrice := r.products[i].startingPrice)
                 && r.products[i].startingPrice <= products[i].startingPrice
  {
    var r := FetchCurrentPrices(products, pages);
    forall i | 0 <= i < |products|
      ensures r.products[i] == products[i].(startingPrice := r.products[i].startingPrice)
      ensures r.products[i].startingPrice <= products[i].startingPrice
    {
      var o := ProcessProduct(products[i], pages[i]);
    }
  }

  /** A product whose page failed keeps its entry unchanged, and every other
      product's written entry is as before. */
  lemma FailedProductSkipped(products: seq<Product>, pages: seq<ProductPage>, i: nat, failure: ProductPage)
    requires |pages| == |products| && i < |products|
    requires !Completed(products[i], failure)
    ensures FetchCurrentPrices(products, pages[i := failure]).products ==
              FetchCurrentPrices(products, pages).products[i := products[i]]
  {
    var a := FetchCurrentPrices(products, pages[i := failure]).products;
    var b := FetchCurrentPrices(products, pages).products[i := products[i]];
    assert |a| == |b|;
    forall j | 0 <= j < |a|
      ensures a[j] == b[j]
    {
      if j == i {
        assert ProcessProduct(products[i], failure).product == products[i];
      }
    }
  }

  /** Collecting two runs of outcomes one after the other concatenates their alerts. */
  lemma {:induction false} CollectConcat(a: seq<Outcome>, b: seq<Outcome>)
    ensures Collect(a + b).alerts == Collect(a).alerts + Collect(b).alerts
    decreases |b|
  {
    if |b| == 0 {
      assert a + b == a;
    } else {
      var n := |b| - 1;
      assert (a + b)[..|a + b| - 1] == a + b[..n];
      assert (a + b)[|a + b| - 1] == b[n];
      CollectConcat(a, b[..n]);
    }
  }

  /** A sequence is its part before `i`, its element `i` and its part after `i`. */
  lemma SplitAround<T>(xs: seq<T>, i: nat)
    requires i < |xs|
    ensures xs == (xs[..i] + [xs[i]]) + xs[i + 1..]
  {
  }

  /** A single outcome's pass sends that outcome's alerts. */
  lemma CollectSingle(o: Outcome)
    ensures Collect([o]).alerts == o.alerts
  {
    assert [o][..0] == [];
  }

  /** The alerts of a pass are those of the outcomes before `i`, then outcome
      `i`'s own, then those of the outcomes after it. */
  lemma CollectAround(outcomes: seq<Outcome>, i: nat)
    requires i < |outcomes|
    ensures Collect(outcomes).alerts ==
              Collect(outcomes[..i]).alerts + outcomes[i].alerts + Collect(outcomes[i + 1..]).alerts
  {
    var pre, single, post := outcomes[..i], [outcomes[i]], outcomes[i + 1..];
    SplitAround(outcomes, i);
    CollectConcat(pre + single, post);
    assert Collect(pre + single).alerts == Collect(pre).alerts + outcomes[i].alerts by {
      CollectConcat(pre, single);
      CollectSingle(outcomes[i]);
    }
  }

  /** Replacing outcome `i` by one that sends nothing removes exactly its alerts from the pass. */
  lemma CollectSkip(os: seq<Outcome>, fs: seq<Outcome>, i: nat)
    requires |fs| == |os| && i < |os|
    requires fs[..i] == os[..i] && fs[i + 1..] == os[i + 1..] && fs[i].alerts == []
    ensures Collect(fs).alerts == Collect(os[..i]).alerts + Collect(os[i + 1..]).alerts
  {
    CollectAround(fs, i);
  }

  /** The outcomes of the first `k` products are the first `k` outcomes. */
  lemma OutcomesPrefix(products: seq<Product>, pages: seq<ProductPage>, k: nat)
    requires |pages| == |products| && k <= |products|
    ensures Outcomes(products[..k], pages[..k]) == Outcomes(products, pages)[..k]
  {
  }

  /** The outcomes of the products from `k` on are the outcomes from `k` on. */
  lemma OutcomesSuffix(products: seq<Product>, pages: seq<ProductPage>, k: nat)
    requires |pages| == |products| && k <= |products|
    ensures Outcomes(products[k..], pages[k..]) == Outcomes(products, pages)[k..]
  {
    var a, b := Outcomes(products[k..], pages[k..]), Outcomes(products, pages)[k..];
    forall j | 0 <= j < |a|
      ensures a[j] == b[j]
    {
      assert products[k..][j] == products[k + j] && pages[k..][j] == pages[k + j];
    }
  }

  /** A product whose page failed sends no alert, and the pass sends exactly the
      alerts of the products before it and after it, as each sends them on its own. */
  lemma FailedProductSilent(products: seq<Product>, pages: seq<ProductPage>, i: nat, failure: ProductPage)
    requires |pages| == |products| && i < |products|
    requires !Completed(products[i], failure)
    ensures var before := FetchCurrentPrices(products[..i], pages[..i]).alerts;
            var after := FetchCurrentPrices(products[i + 1..], pages[i + 1..]).alerts;
            && FetchCurrentPrices(products, pages[i := failure]).alerts == before + after
            && FetchCurrentPrices(products, pages).alerts == before + ProcessProduct(products[i], pages[i]).alerts + after
  {
    var failed := pages[i := failure];
    var os, fs := Outcomes(products, pages), Outcomes(products, failed);
    assert fs[..i] == os[..i] == Outcomes(products[..i], pages[..i]) by {
      assert failed[..i] == pages[..i];
      OutcomesPrefix(products, pages, i);
      OutcomesPrefix(products, failed, i);
    }
    assert fs[i + 1..] == os[i + 1..] == Outcomes(products[i + 1..], pages[i + 1..]) by {
      assert failed[i + 1..] == pages[i + 1..];
      OutcomesSuffix(products, pages, i + 1);
      OutcomesSuffix(products, failed, i + 1);
    }
    assert fs[i].alerts == [] by {
      assert fs[i] == ProcessProduct(products[i], failure);
    }
    CollectSkip(os, fs, i);
    CollectAround(os, i);
  }

  /** The `for ... of` loop over the products, accumulating alerts and updated entries. */
  method RunPass(products: seq<Product>, pages: seq<ProductPage>) returns (alerts: seq<Alert>, written: seq<Product>)
    requires |pages| == |products|
    ensures PassResult(alerts, written) == FetchCurrentPrices(products, pages)
    ensures |written| == |products|
    ensures forall i | 0 <= i < |products| :: written[i].startingPrice <= products[i].startingPrice
  {
    ghost var outcomes := seq(|products|, i requires 0 <= i < |products| => ProcessProduct(products[i], pages[i]));
    alerts := [];
    written := [];
    var i := 0;
    while i < |products|
      invariant 0 <= i <= |products|
      invariant PassResult(alerts, written) == Collect(outcomes[..i])
    {
      var o := ProcessProduct(products[i], pages[i]);
      assert outcomes[..i + 1][..i] == outcomes[..i];
      assert outcomes[..i + 1][i] == o;
      alerts := alerts + o.alerts;
      written := written + [o.product];
      i := i + 1;
    }
    assert outcomes[..i] == outcomes;
  }
}
