/** `check_item_price`: one price check of a tracked item, from the fetched
    page to the five-part result, and the naming of a new item
    (`detect_item_name`). */
module Checker {
  import opened Wrappers
  import opened Text
  import opened Decimals
  import opened PriceNormalizer
  import opened Markup
  import opened Locator
  import opened Fallback

  /** The stored item a check needs: its address and its optional locator. */
  datatype Item = Item(url: string, selector: Option<string>, selectorType: Option<string>)

  /** The outcome of fetching the item's page. */
  datatype Fetch = FetchError(message: string) | Body(page: Page)

  /** `(success, price, raw_text, error, currency)`. */
  datatype CheckResult = CheckResult(
    success: bool,
    price: Option<Decimal>,
    rawText: Option<string>,
    error: Option<string>,
    currency: Option<string>)

  const HttpErrorPrefix: string := "HTTP error: "
  const NoPriceFound: string := "Could not automatically detect a price. Add a selector for better accuracy."
  const NoNumericPrice: string := "Could not parse numeric price from matched content."

  function Failure(rawText: Option<string>, error: string): CheckResult {
    CheckResult(false, None, rawText, Some(error), None)
  }

  /** The item's locator, stripped; a missing one is empty. */
  function SelectorValue(item: Item): string {
    Strip(item.selector.GetOr(""))
  }

  /** What is left once the raw text is known: a text that does not parse is
      a failure that keeps the text; otherwise success, with the currency
      from the fallbacks. */
  function Priced(page: Page, rawText: string): CheckResult {
    match NormalizePrice(rawText)
    case None => Failure(Some(rawText), NoNumericPrice)
    case Some(price) => CheckResult(true, Some(price), Some(rawText), None, FallbackCurrency(page, Some(rawText)))
  }

  /** The checks from the automatic tiers on, given what the locator found. */
  function FromRawText(page: Page, located: Option<string>): CheckResult {
    if located.Some? then Priced(page, located.value)
    else
      match FallbackPriceText(page)
      case None => Failure(None, NoPriceFound)
      case Some(t) => Priced(page, t)
  }

  /** `check_item_price`. A fetch error and a locator error end the check; a
      blank locator, or one that finds nothing, leaves the price to the
      automatic tiers. */
  function Check(item: Item, fetch: Fetch): CheckResult {
    match fetch
    case FetchError(m) => Failure(None, HttpErrorPrefix + m)
    case Body(page) =>
      var selector := SelectorValue(item);
      if selector == [] then FromRawText(page, None)
      else
        var located := RawText(page, selector, item.selectorType);
        if located.error.Some? then Failure(None, located.error.value)
        else FromRawText(page, located.text)
  }

  /** `check_item_price`, as the source computes it. */
  method CheckItemPrice(item: Item, fetch: Fetch) returns (r: CheckResult)
    ensures r == Check(item, fetch)
  {
    if fetch.FetchError? {
      return Failure(None, HttpErrorPrefix + fetch.message);
    }
    var page := fetch.page;
    var rawText: Option<string> := None;
    var selectorValue := Strip(item.selector.GetOr(""));
    if selectorValue != [] {
      var located := ExtractRawText(page, selectorValue, item.selectorType);
      if located.error.Some? {
        return Failure(None, located.error.value);
      }
      rawText := located.text;
    }
    if rawText.None? {
      rawText := FallbackExtractPriceText(page);
      if rawText.None? {
        return Failure(None, NoPriceFound);
      }
    }
    var price := NormalizePrice(rawText.value);
    if price.None? {
      return Failure(rawText, NoNumericPrice);
    }
    var currency := FallbackExtractCurrency(page, rawText);
    return CheckResult(true, price, rawText, None, currency);
  }

  /** The shape every result of a fetched page has: success means a price
      and no error, the price being the one the raw text states and the
      currency the fallbacks' choice; failure means no price, no currency and
      an error; a failure that keeps a raw text is one whose text does not
      parse. */
  predicate Consistent(r: CheckResult, page: Page) {
    && (r.success ==>
          && r.price.Some? && r.error.None? && r.rawText.Some?
          && r.price == NormalizePrice(r.rawText.value)
          && r.currency == FallbackCurrency(page, r.rawText))
    && (!r.success ==> r.price.None? && r.currency.None? && r.error.Some?)
    && (!r.success && r.rawText.Some? ==>
          r.error == Some(NoNumericPrice) && NormalizePrice(r.rawText.value).None?)
  }

  lemma CheckOutcome(item: Item, page: Page)
    ensures Consistent(Check(item, Body(page)), page)
  {
    var selector := SelectorValue(item);
    if selector == [] {
      FromRawTextOutcome(page, None);
    } else {
      var located := RawText(page, selector, item.selectorType);
      if located.error.None? {
        FromRawTextOutcome(page, located.text);
      }
    }
  }

  lemma FromRawTextOutcome(page: Page, located: Option<string>)
    ensures Consistent(FromRawText(page, located), page)
  {
    if located.Some? {
      PricedOutcome(page, located.value);
    } else if FallbackPriceText(page).Some? {
      PricedOutcome(page, FallbackPriceText(page).value);
    }
  }

  /** A raw text is kept in the result whether or not it parses. */
  lemma PricedOutcome(page: Page, rawText: string)
    ensures Consistent(Priced(page, rawText), page)
    ensures Priced(page, rawText).rawText == Some(rawText)
    ensures Priced(page, rawText).success <==> NormalizePrice(rawText).Some?
  {
  }

  /** A fetch error ends the check before any tier runs. */
  lemma FetchErrorStops(item: Item, m: string)
    ensures Check(item, FetchError(m)) == CheckResult(false, None, None, Some(HttpErrorPrefix + m), None)
  {
  }

  /** A locator error ends the check before any automatic tier runs. */
  lemma SelectorErrorStops(item: Item, page: Page)
    requires SelectorValue(item) != []
    requires RawText(page, SelectorValue(item), item.selectorType).error.Some?
    ensures Check(item, Body(page)) ==
      CheckResult(false, None, None, RawText(page, SelectorValue(item), item.selectorType).error, None)
  {
  }

  /** A blank locator is no locator. */
  lemma BlankSelectorIgnored(item: Item, fetch: Fetch)
    requires item.selector.Some? && IsBlank(item.selector.value)
    ensures Check(item, fetch) == Check(item.(selector := None), fetch)
  {
    StripBlank(item.selector.value);
    assert Strip([]) == [] by { StripBlank([]); }
  }

  /** A locator that finds nothing, without an error, leaves the check to the
      automatic tiers, exactly as if there were no locator. */
  lemma NoMatchFallsThrough(item: Item, page: Page)
    requires SelectorValue(item) != []
    requires RawText(page, SelectorValue(item), item.selectorType) == Located(None, None)
    ensures Check(item, Body(page)) == Check(item.(selector := None), Body(page))
  {
    assert Strip([]) == [] by { StripBlank([]); }
  }

  /** The text a locator finds is the raw text, and the automatic tiers are
      not consulted for the price. */
  lemma SelectorTextUsed(item: Item, page: Page)
    requires SelectorValue(item) != []
    requires RawText(page, SelectorValue(item), item.selectorType).text.Some?
    ensures Check(item, Body(page)).rawText == RawText(page, SelectorValue(item), item.selectorType).text
  {
    RawTextSpec(page, SelectorValue(item), item.selectorType);
  }

  /** Without a locator: the raw text is the JSON-LD price, else the meta
      price, else the heuristic's pick, and with none of them the advisory
      error is reported with no raw text. */
  lemma AutomaticTiers(item: Item, page: Page)
    requires SelectorValue(item) == []
    ensures var r := Check(item, Body(page));
      && (FallbackPriceText(page).None? ==> r == CheckResult(false, None, None, Some(NoPriceFound), None))
      && (FallbackPriceText(page).Some? ==> r.rawText == FallbackPriceText(page))
  {
  }

  /** The longest item name kept. */
  const MaxNameLength: nat := 180

  /** The queries that may hold an item's name, in order. */
  const NameSelectors: seq<string> := [
    "meta[property=\"og:title\"]::attr(content)",
    "meta[name=\"twitter:title\"]::attr(content)",
    "h1::text",
    "title::text"
  ]

  /** The candidate names, in the order they are collected. */
  function NameCandidates(page: Page): seq<string> {
    page.css(NameSelectors[0]) + page.css(NameSelectors[1]) + page.css(NameSelectors[2]) + page.css(NameSelectors[3])
  }

  /** The first characters of `s`, at most `n` of them. */
  function Truncate(s: string, n: nat): (r: string)
    ensures |r| == (if |s| <= n then |s| else n) && r == s[..|r|]
  {
    if |s| <= n then s else s[..n]
  }

  /** `detect_item_name` after the fetch: the first candidate name with its
      whitespace runs collapsed to one space, stripped and cut to 180
      characters; else a name made of the host (`netloc`), when there is one.
      A failed fetch yields no name. */
  function ItemName(fetch: Fetch, netloc: string): Option<string> {
    match fetch
    case FetchError(_) => None
    case Body(page) =>
      var name := FirstNonEmpty(NameCandidates(page), page.markupText);
      var cleaned := if name.Some? then Strip(CollapseSpaces(name.value)) else [];
      if cleaned != [] then Some(Truncate(cleaned, MaxNameLength))
      else if netloc != [] then Some("Item from " + netloc)
      else None
  }

  /** A found name is used, never the host: a name is never blank, collapsing
      keeps its first character, so the cleaned name is never empty. The
      result is the cleaned name cut to 180 characters; it is not empty and
      begins like the name. */
  lemma ItemNameSpec(fetch: Fetch, netloc: string)
    ensures var r := ItemName(fetch, netloc);
      fetch.Body? && FirstNonEmpty(NameCandidates(fetch.page), fetch.page.markupText).Some? ==>
        var name := FirstNonEmpty(NameCandidates(fetch.page), fetch.page.markupText).value;
        && r == Some(Truncate(Strip(CollapseSpaces(name)), MaxNameLength))
        && 0 < |r.value| <= MaxNameLength
        && r.value[0] == name[0]
  {
    if fetch.Body? {
      var page := fetch.page;
      var found := FirstNonEmpty(NameCandidates(page), page.markupText);
      FirstNonEmptySpec(NameCandidates(page), page.markupText);
      if found.Some? {
        var name := found.value;
        var collapsed := CollapseSpaces(name);
        CleanedStartsLikeName(name, collapsed);
      }
    }
  }

  /** Stripping the collapsed form of a stripped, non-empty name keeps its
      first character. */
  lemma CleanedStartsLikeName(name: string, collapsed: string)
    requires name != [] && IsStripped(name)
    requires collapsed != [] && collapsed[0] == name[0]
    ensures Strip(collapsed) != [] && Strip(collapsed)[0] == name[0]
  {
    assert !IsSpace(collapsed[0]);
    StripPrefix(collapsed);
  }

  /** The name candidates are searched query by query: the Open Graph title,
      then the Twitter title, then the `h1` texts, then the `<title>`. */
  lemma NameOrder(page: Page)
    ensures var f := (sel: string) => FirstNonEmpty(page.css(sel), page.markupText);
      FirstNonEmpty(NameCandidates(page), page.markupText) ==
        if f(NameSelectors[0]).Some? then f(NameSelectors[0])
        else if f(NameSelectors[1]).Some? then f(NameSelectors[1])
        else if f(NameSelectors[2]).Some? then f(NameSelectors[2])
        else f(NameSelectors[3])
  {
    var g := CandidateTextOf(page.markupText);
    var a, b, c, d := page.css(NameSelectors[0]), page.css(NameSelectors[1]), page.css(NameSelectors[2]), page.css(NameSelectors[3]);
    assert NameCandidates(page) == a + (b + (c + d));
    FirstSomeAppend(a, b + (c + d), g);
    FirstSomeAppend(b, c + d, g);
    FirstSomeAppend(c, d, g);
  }

  /** Without a name the host names the item. */
  lemma HostNamesItem(page: Page, netloc: string)
    requires FirstNonEmpty(NameCandidates(page), page.markupText).None? && netloc != []
    ensures ItemName(Body(page), netloc) == Some("Item from " + netloc)
  {
  }
}
