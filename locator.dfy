/** `_extract_raw_text`: the text a user-supplied CSS or XPath locator picks
    out of a page, or the error that stops the check. */
module Locator {
  import opened Wrappers
  import opened Text
  import opened Markup

  /** What the locator yields: `(text, error)` of the source. */
  datatype Located = Located(text: Option<string>, error: Option<string>)

  const XPathErrorPrefix: string := "Invalid XPath selector: "
  const CssErrorPrefix: string := "Invalid CSS selector: "
  const KindError: string := "Selector type must be css or xpath."

  /** The first text the matches of one CSS retry hold; a retry whose query
      raises yields nothing. */
  function Retry(page: Page, query: string): Option<string> {
    match page.query(Css, query)
    case Failed(_) => None
    case Found(ms) => FirstNonEmpty(ms, page.markupText)
  }

  /** `_extract_raw_text`. An XPath locator yields the first text among its
      matches. A CSS locator likewise; when it has none and holds no "::",
      the same locator with "::text" and then with "::attr(content)" is
      tried. A query that raises is an error, except in the retries. Any
      other kind of locator (a missing one too) is an error. */
  function RawText(page: Page, selector: string, selectorType: Option<string>): Located {
    if selectorType == Some("xpath") then
      match page.query(XPath, selector)
      case Failed(m) => Located(None, Some(XPathErrorPrefix + m))
      case Found(ms) => Located(FirstNonEmpty(ms, page.markupText), None)
    else if selectorType != Some("css") then Located(None, Some(KindError))
    else
      match page.query(Css, selector)
      case Failed(m) => Located(None, Some(CssErrorPrefix + m))
      case Found(ms) =>
        var extracted := FirstNonEmpty(ms, page.markupText);
        if extracted.Some? then Located(extracted, None)
        else if IsInfix("::", selector) then Located(None, None)
        else
          var withText := Retry(page, selector + "::text");
          if withText.Some? then Located(withText, None)
          else Located(Retry(page, selector + "::attr(content)"), None)
  }

  /** `_extract_raw_text`, as the source computes it. */
  method ExtractRawText(page: Page, selector: string, selectorType: Option<string>) returns (r: Located)
    ensures r == RawText(page, selector, selectorType)
  {
    if selectorType == Some("xpath") {
      var results := page.query(XPath, selector);
      if results.Failed? {
        return Located(None, Some(XPathErrorPrefix + results.message));
      }
      var extracted := FirstNonEmptyText(results.matches, page.markupText);
      if extracted.Some? {
        return Located(extracted, None);
      }
      return Located(None, None);
    }
    if selectorType != Some("css") {
      return Located(None, Some(KindError));
    }
    var matches := page.query(Css, selector);
    if matches.Failed? {
      return Located(None, Some(CssErrorPrefix + matches.message));
    }
    var extracted := FirstNonEmptyText(matches.matches, page.markupText);
    if extracted.Some? {
      return Located(extracted, None);
    }
    if !IsInfix("::", selector) {
      extracted := RetryText(page, selector + "::text");
      if extracted.Some? {
        return Located(extracted, None);
      }
      extracted := RetryText(page, selector + "::attr(content)");
      if extracted.Some? {
        return Located(extracted, None);
      }
    }
    return Located(None, None);
  }

  /** One CSS retry, its exception swallowed. */
  method RetryText(page: Page, query: string) returns (r: Option<string>)
    ensures r == Retry(page, query)
  {
    var matches := page.query(Css, query);
    if matches.Failed? {
      return None;
    }
    r := FirstNonEmptyText(matches.matches, page.markupText);
  }

  /** Never both a text and an error; a text is non-empty and stripped; an
      error is exactly a raising query of the locator itself or a wrong kind. */
  lemma RawTextSpec(page: Page, selector: string, selectorType: Option<string>)
    ensures var r := RawText(page, selector, selectorType);
      && !(r.text.Some? && r.error.Some?)
      && (r.text.Some? ==> r.text.value != [] && IsStripped(r.text.value))
      && (r.error.Some? <==>
            || (selectorType == Some("xpath") && page.query(XPath, selector).Failed?)
            || (selectorType == Some("css") && page.query(Css, selector).Failed?)
            || (selectorType != Some("xpath") && selectorType != Some("css")))
  {
    SpecOfMatches(page, page.query(XPath, selector));
    SpecOfMatches(page, page.query(Css, selector));
    SpecOfMatches(page, page.query(Css, selector + "::text"));
    SpecOfMatches(page, page.query(Css, selector + "::attr(content)"));
  }

  lemma SpecOfMatches(page: Page, q: QueryResult)
    ensures q.Found? ==> var r := FirstNonEmpty(q.matches, page.markupText);
      r.Some? ==> r.value != [] && IsStripped(r.value)
  {
    if q.Found? {
      FirstNonEmptySpec(q.matches, page.markupText);
    }
  }

  /** The error messages carry the query engine's message. */
  lemma RawTextErrors(page: Page, selector: string, selectorType: Option<string>)
    ensures selectorType == Some("xpath") && page.query(XPath, selector).Failed? ==>
      RawText(page, selector, selectorType).error == Some(XPathErrorPrefix + page.query(XPath, selector).message)
    ensures selectorType == Some("css") && page.query(Css, selector).Failed? ==>
      RawText(page, selector, selectorType).error == Some(CssErrorPrefix + page.query(Css, selector).message)
    ensures selectorType != Some("xpath") && selectorType != Some("css") ==>
      RawText(page, selector, selectorType) == Located(None, Some(KindError))
  {
  }

  /** A CSS locator that already names a pseudo-element is not retried. */
  lemma NoRetryWithPseudoElement(page: Page, selector: string)
    requires IsInfix("::", selector)
    requires page.query(Css, selector).Found?
    ensures RawText(page, selector, Some("css")) ==
      Located(FirstNonEmpty(page.query(Css, selector).matches, page.markupText), None)
  {
  }

  /** An XPath locator is never retried, whatever it contains. */
  lemma NoRetryForXPath(page: Page, selector: string)
    requires page.query(XPath, selector).Found?
    ensures RawText(page, selector, Some("xpath")) ==
      Located(FirstNonEmpty(page.query(XPath, selector).matches, page.markupText), None)
  {
  }

  /** The retries run in order, and one that raises is passed over: with no
      text from the locator itself, the "::text" retry wins when it has a
      text, and otherwise the "::attr(content)" retry decides. */
  lemma RetryOrder(page: Page, selector: string)
    requires !IsInfix("::", selector)
    requires page.query(Css, selector).Found?
    requires FirstNonEmpty(page.query(Css, selector).matches, page.markupText).None?
    ensures var r := RawText(page, selector, Some("css"));
      && r.error.None?
      && (Retry(page, selector + "::text").Some? ==> r.text == Retry(page, selector + "::text"))
      && (Retry(page, selector + "::text").None? ==> r.text == Retry(page, selector + "::attr(content)"))
      && (page.query(Css, selector + "::text").Failed? ==> r.text == Retry(page, selector + "::attr(content)"))
  {
  }
}
