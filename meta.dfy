/** `_extract_price_from_common_meta` and `_extract_currency_from_common_meta`:
    the price and currency shops publish in `<meta>` tags. */
module MetaTags {
  import opened Wrappers
  import opened Text
  import opened Markup
  import opened Currency

  /** The `<meta>` queries for a price, in the order they are tried. */
  const MetaPriceSelectors: seq<string> := [
    "meta[property=\"product:price:amount\"]::attr(content)",
    "meta[property=\"og:price:amount\"]::attr(content)",
    "meta[property=\"og:price:standard_amount\"]::attr(content)",
    "meta[name=\"twitter:data1\"]::attr(content)",
    "meta[itemprop=\"price\"]::attr(content)"
  ]

  /** The `<meta>` queries for a currency, in the order they are tried. */
  const MetaCurrencySelectors: seq<string> := [
    "meta[property=\"product:price:currency\"]::attr(content)",
    "meta[property=\"og:price:currency\"]::attr(content)",
    "meta[itemprop=\"priceCurrency\"]::attr(content)"
  ]

  /** The first text among the values one query matches. */
  function MetaValue(page: Page, selector: string): Option<string> {
    FirstNonEmpty(page.css(selector), page.markupText)
  }

  function MetaValueOf(page: Page): string -> Option<string> {
    selector => MetaValue(page, selector)
  }

  /** The first query of `selectors` whose values hold a text, and that text. */
  function FirstMeta(page: Page, selectors: seq<string>): Option<string> {
    FirstSome(selectors, MetaValueOf(page))
  }

  /** `_extract_price_from_common_meta`. */
  function MetaPrice(page: Page): Option<string> {
    FirstMeta(page, MetaPriceSelectors)
  }

  /** `_extract_currency_from_common_meta`: the first currency text, upper-cased
      when that makes it a known code. */
  function MetaCurrency(page: Page): Option<string> {
    match FirstMeta(page, MetaCurrencySelectors)
    case None => None
    case Some(v) => Some(CanonicalCurrency(v))
  }

  /** The loop over the queries both extractors share. */
  method FirstMetaText(page: Page, selectors: seq<string>) returns (r: Option<string>)
    ensures r == FirstMeta(page, selectors)
  {
    var i := 0;
    while i < |selectors|
      invariant i <= |selectors|
      invariant FirstSome(selectors[i..], MetaValueOf(page)) == FirstMeta(page, selectors)
    {
      FirstSomeStep(selectors, MetaValueOf(page), i);
      var values := page.css(selectors[i]);
      var extracted := FirstNonEmptyText(values, page.markupText);
      if extracted.Some? {
        return extracted;
      }
      i := i + 1;
    }
    return None;
  }

  /** `_extract_price_from_common_meta`, as the loop it is. */
  method ExtractPriceFromCommonMeta(page: Page) returns (r: Option<string>)
    ensures r == MetaPrice(page)
  {
    r := FirstMetaText(page, MetaPriceSelectors);
  }

  /** `_extract_currency_from_common_meta`, as the loop it is. */
  method ExtractCurrencyFromCommonMeta(page: Page) returns (r: Option<string>)
    ensures r == MetaCurrency(page)
  {
    var extracted := FirstMetaText(page, MetaCurrencySelectors);
    if extracted.None? {
      return None;
    }
    var value := Upper(extracted.value);
    if value in KnownCurrencyCodes {
      return Some(value);
    }
    return extracted;
  }

  /** The text found is non-empty and stripped, and it comes from the first
      query that yields one; there is none exactly when no query yields one. */
  lemma {:induction false} FirstMetaSpec(page: Page, selectors: seq<string>)
    ensures var r := FirstMeta(page, selectors);
      && (r.Some? ==> r.value != [] && IsStripped(r.value))
      && (r.Some? ==>
            exists k :: 0 <= k < |selectors| && MetaValue(page, selectors[k]) == r
              && forall j :: 0 <= j < k ==> MetaValue(page, selectors[j]).None?)
      && (r.None? <==> forall k :: 0 <= k < |selectors| ==> MetaValue(page, selectors[k]).None?)
  {
    var f := MetaValueOf(page);
    var r := FirstMeta(page, selectors);
    if r.Some? {
      var k :| 0 <= k < |selectors| && f(selectors[k]) == r;
      FirstNonEmptySpec(page.css(selectors[k]), page.markupText);
    }
    if forall k :: 0 <= k < |selectors| ==> MetaValue(page, selectors[k]).None? {
      assert forall k :: 0 <= k < |selectors| ==> f(selectors[k]).None?;
    }
  }

  /** The meta currency is a known code, or else the text found left as it is. */
  lemma MetaCurrencySpec(page: Page)
    ensures var r := MetaCurrency(page);
      var t := FirstMeta(page, MetaCurrencySelectors);
      && (r.None? <==> t.None?)
      && (r.Some? ==> r.value != [] && (r.value in KnownCurrencyCodes || r == t))
      && (t.Some? && Upper(t.value) in KnownCurrencyCodes ==> r == Some(Upper(t.value)))
  {
    FirstMetaSpec(page, MetaCurrencySelectors);
  }
}
