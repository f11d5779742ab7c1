# Price extraction of the price tracker, in Dafny

The price tracker checks the price of a tracked product page. All of its
logic lives in `price_tracker/scraper.py`, and this project models that file.

- **Normaliser.** A price is read from a piece of text: the first numeric run,
  spaces removed, the decimal separator worked out between `,` and `.`, then
  parsed as an exact decimal.
- **Sources of the raw price text.** They are tried in this order:
  1. the user's CSS or XPath selector, when the item has one;
  2. the JSON-LD blocks of the page, searched depth first;
  3. the common `<meta>` price tags;
  4. a heuristic that scores the visible texts mentioning a price or a currency.
- **Currency.** It comes from a code or symbol in the raw text. Failing that, it
  comes from the JSON-LD, then from the meta tags.
- **Item names.** A new item is named after the page's title, or else after
  its host.

Each module takes the source's own form:

- Pure code is modelled by datatypes, functions and lemmas. This covers the
  normaliser, the recursive JSON-LD walks and the decision chains.
- Each early-return loop and each straight-line sequence of the source is a
  `method` whose `ensures` ties its result to a specification function. These
  are the candidate, meta-selector, script and symbol loops, the scoring loop,
  the locator and the check.
- The properties the source promises are proved about those functions.

| module | file | models |
|---|---|---|
| `Wrappers` | `wrappers.dfy` | `Option`; `FirstSome`, the "first element that yields something" search behind every early-return loop |
| `Text` | `text.dfy` | `str.strip`, whitespace, `replace`, `count`, `rfind`, `in`, `upper`/`lower`, `re.sub(r"\s+", " ", …)` |
| `Decimals` | `decimals.dfy` | exact decimals (mantissa and scale) and `Decimal(…)` on the texts the normaliser produces |
| `PriceNormalizer` | `normalize.dfy` | `_normalize_price`, `_is_reasonable_price` |
| `Currency` | `currency.dfy` | `KNOWN_CURRENCY_CODES`, `KNOWN_CURRENCY_SYMBOLS`, `_detect_currency_from_text` |
| `JsonData` | `json.dfy` | the JSON value `json.loads` returns: `Null`, `Bool`, `Num`, `Str`, `List`, `Map` (an ordered list of entries) |
| `Markup` | `markup.dfy` | the page, given by what the HTML parser returns; `_first_non_empty_text` |
| `JsonLd` | `jsonld.dfy` | `_extract_price_from_json_ld`, `_extract_currency_from_json_ld` |
| `MetaTags` | `meta.dfy` | `_extract_price_from_common_meta`, `_extract_currency_from_common_meta` |
| `Fallback` | `fallback.dfy` | `_fallback_extract_price_text`, `_fallback_extract_currency` |
| `Locator` | `locator.dfy` | `_extract_raw_text` |
| `Checker` | `checker.dfy` | `check_item_price`, and `detect_item_name` after the fetch |

A page (`Markup.Page`) is a record of oracles, one for each service the scraper
asks of its parser:

- `css` and `xpath` give the strings a fixed query matches;
- `query` runs the user's selector, which may fail with a message;
- `markupText` gives the text content of a fragment of markup;
- `parseJson` stands for `json.loads`, giving nothing where it raises `JSONDecodeError`.

A fetch is an input: either an error message or a page.

The separator rule of the normaliser is carried by the shape lemmas, from
`DotThousandsCommaDecimal` to `InnerWhitespace`. Each one gives the value of
every text of one shape. The `Disambiguate…` lemmas only restate one branch
of the rule under its guard, as a reading aid. Likewise `CodeWins`,
`RawTextErrors`, `NoRetryForXPath` and `NoRetryWithPseudoElement` each name
one branch of their function.

## Model

| member | source | states |
|---|---|---|
| `Wrappers.FirstSome` | price_tracker/scraper.py:56-72 | the result is what the first element yielding something yields, every earlier one yielding nothing; nothing only when no element yields anything |
| `Wrappers.FirstSomeAt` | price_tracker/scraper.py:56-72 | conversely, an element that yields something, with every earlier element yielding nothing, decides the result |
| `Wrappers.FirstSomeAppend` | price_tracker/scraper.py:357-363 | searching a concatenation searches the left part first (the four `extend`s before the name search) |
| `Text.StripSpec` | price_tracker/scraper.py:60 | `str.strip()`: the result is the text with a blank prefix and a blank suffix removed, and has no whitespace at either end |
| `Text.StripBlank` | price_tracker/scraper.py:61 | a stripped text is empty exactly when the text is all whitespace |
| `Text.StripStripped` | price_tracker/scraper.py:60 | a text with no whitespace at either end is its own strip, so stripping twice is stripping once |
| `Text.CollapseSpaces` | price_tracker/scraper.py:365 | the only whitespace left is the space, no two spaces are adjacent, the empty text stays empty and the first character is kept unless it is whitespace |
| `Text.CollapseSpacesSpec` | price_tracker/scraper.py:365 | `re.sub(r"\s+", " ", …)` equals the character-by-character reference `Squeeze`: a whitespace character starting a run becomes one space, one following whitespace is dropped, every other character is kept in order |
| `Text.UpperIdempotent` | price_tracker/scraper.py:79 | upper-casing twice is upper-casing once |
| `Decimals.FormatParseRoundTrip` | price_tracker/scraper.py:50 | `Decimal(…)` reads the canonical text of every decimal back as that decimal |
| `Decimals.ParsePointed` | price_tracker/scraper.py:50 | digits, a point and digits parse to all the digits as the mantissa, with the length of the fraction as the scale |
| `Decimals.ParseDigits` | price_tracker/scraper.py:50 | a digit string parses to its value with scale 0 |
| `Decimals.ParseNegated` | price_tracker/scraper.py:50 | a leading `-` negates the value |
| `PriceNormalizer.NumericSpanSpec` | price_tracker/scraper.py:32-34 | no match exactly when no position starts `[-+]?\d`; otherwise the match starts at the leftmost such position and runs over `[\d.,\s]` as far as it can |
| `PriceNormalizer.Disambiguate` | price_tracker/scraper.py:38-47 | no comma is left whichever branch is taken |
| `PriceNormalizer.DisambiguateCommaLast` | price_tracker/scraper.py:38-41 | with both separators and the comma rightmost, the points are deleted and the comma becomes the decimal point (one branch under its guard) |
| `PriceNormalizer.DisambiguatePointLast` | price_tracker/scraper.py:38-43 | with both separators and the point rightmost, the commas are deleted (one branch under its guard) |
| `PriceNormalizer.DisambiguateLoneComma` | price_tracker/scraper.py:44-45 | one comma and no point: the comma is the decimal point (one branch under its guard) |
| `PriceNormalizer.DisambiguateManyCommas` | price_tracker/scraper.py:46-47 | several commas and no point: they are deleted (one branch under its guard) |
| `PriceNormalizer.DisambiguateNoComma` | price_tracker/scraper.py:46-47 | a text without a comma is unchanged |
| `PriceNormalizer.DotThousandsCommaDecimal` | price_tracker/scraper.py:36-50 | `"1.234,56"` and every text of that shape gives all its digits with the fraction's length as scale (1234.56) |
| `PriceNormalizer.CommaThousandsDotDecimal` | price_tracker/scraper.py:36-50 | `"1,234.56"` and its like give 1234.56 |
| `PriceNormalizer.SpaceThousandsCommaDecimal` | price_tracker/scraper.py:36-50 | `"1 234,56"` and its like give 1234.56: spaces are removed |
| `PriceNormalizer.PlainDotDecimal` | price_tracker/scraper.py:36-50 | `"1234.56"` and its like give 1234.56 |
| `PriceNormalizer.PlainCommaDecimal` | price_tracker/scraper.py:36-50 | `"1234,56"` gives 1234.56, and a lone comma is a decimal separator whatever follows it (`"1,234"` is 1.234) |
| `PriceNormalizer.CommaThousandsInteger` | price_tracker/scraper.py:36-50 | `"1,234,567"` gives the integer 1234567 |
| `PriceNormalizer.DotThousandsIntegerRejected` | price_tracker/scraper.py:36-52 | `"1.234.567"` and `"1.2.3"` have two decimal points, so there is no price |
| `PriceNormalizer.TwoPointsRejected` | price_tracker/scraper.py:49-52 | `Decimal(…)` rejects a text with two points: no price, no exception |
| `PriceNormalizer.StrayCharRejected` | price_tracker/scraper.py:49-52 | `Decimal(…)` rejects a text that starts with a digit, has no point and holds some other non-digit |
| `PriceNormalizer.InnerWhitespace` | price_tracker/scraper.py:32-52 | a space inside the number is removed, but any other whitespace (a tab, a newline) is kept, so there is no price |
| `PriceNormalizer.NoDigitNoPrice` | price_tracker/scraper.py:32-34 | a text without a digit has no price |
| `PriceNormalizer.FirstRunOnly` | price_tracker/scraper.py:32-36 | whatever follows the end of the first numeric run does not change the result |
| `PriceNormalizer.PrefixWithoutDigits` | price_tracker/scraper.py:32-36 | a prefix with no digit, not ending in a sign, does not change the result |
| `PriceNormalizer.NormalizeFormatRoundTrip` | price_tracker/scraper.py:31-52 | the canonical text of every decimal normalises back to that decimal |
| `PriceNormalizer.IsReasonablePrice` | price_tracker/scraper.py:91-94 | true exactly for a price strictly between 0 and 10,000,000 |
| `Currency.FirstCodeWordFromSpec` | price_tracker/scraper.py:80 | the search finds the leftmost `\b[A-Z]{3}\b` word, and nothing only when there is none |
| `Currency.CodeWord` | price_tracker/scraper.py:80 | a found code word has three letters |
| `Currency.DetectCurrencyFromText` | price_tracker/scraper.py:75-88 | the method computes the specification function `CurrencyFromText` |
| `Currency.FirstSymbolIn` | price_tracker/scraper.py:84-86 | the symbol loop returns the first symbol of the table that occurs in the text |
| `Currency.CurrencyFromTextKnown` | price_tracker/scraper.py:11-88 | the result is a known code or a known symbol, and nothing for a missing or empty text |
| `Currency.CodeWins` | price_tracker/scraper.py:79-82 | a known code as the first capital word wins over any symbol |
| `Currency.SymbolPriority` | price_tracker/scraper.py:84-86 | otherwise the earliest symbol of the table that occurs in the text is the result |
| `Currency.RealBeforeDollar` | price_tracker/scraper.py:84-86 | `R$` stands before `$` in the symbol table (line 17), so a text holding `R$` yields `R$`, never `$` |
| `Currency.NoSymbolNoCurrency` | price_tracker/scraper.py:84-88 | no known code word and no symbol means no currency |
| `Currency.FirstWordOnly` | price_tracker/scraper.py:80-82 | only the first capital word is tested: `"NOW 10 EUR"` has no currency |
| `Currency.TrailingCode` | price_tracker/scraper.py:79-82 | the text is upper-cased first: `"12.50 usd"` is `USD` |
| `Currency.CanonicalCurrency` | price_tracker/scraper.py:150-153 | the normalisation of both the JSON-LD and the meta currency (also lines 214-215): the result is a known code exactly when the upper-cased value is one, and it is the value or its upper-cased form |
| `Currency.CanonicalCurrencyIdempotent` | price_tracker/scraper.py:150-153 | normalising a currency twice changes nothing more |
| `JsonData.Get` | price_tracker/scraper.py:104 | `node.get(key)`: a value found is the value of an entry with that key; nothing is found only when no entry has the key |
| `JsonData.KeyIndexFirst` | price_tracker/scraper.py:104 | the entry found is the first with the key |
| `JsonLd.ScalarText` | price_tracker/scraper.py:105-106 | exactly strings, numbers and booleans have a text, and a string is its own text |
| `JsonLd.PriceAt` | price_tracker/scraper.py:104-106 | a price an object states under a key is never blank |
| `JsonLd.PriceKeyOrder` | price_tracker/scraper.py:103-106 | at an object, `price` beats `lowPrice`, which beats `highPrice` |
| `JsonLd.OffersFirst` | price_tracker/scraper.py:108-112 | without a price of its own, an object's `offers` decide before any other value, wherever they stand |
| `JsonLd.BooleanPrice` | price_tracker/scraper.py:105-106 | a boolean `true` price is the text `"True"` |
| `JsonLd.DeclaredCurrencySpec` | price_tracker/scraper.py:148-153 | an object declares a currency exactly when its `priceCurrency` is a non-blank string; the currency is that string stripped, and upper-cased exactly when that makes it a known code |
| `JsonLd.LowerCaseCode` | price_tracker/scraper.py:150-152 | a declared `"usd"` is reported as `"USD"` |
| `JsonLd.WalkSpec` | price_tracker/scraper.py:101-166 | the depth-first walk finds something exactly when some object inside states something, and what it finds is so stated |
| `JsonLd.NestedInOrder` | price_tracker/scraper.py:108-112 | the nested keys are tried in their order, the first whose value yields something deciding; a missing key yields nothing |
| `JsonLd.ValuesInOrder` | price_tracker/scraper.py:114-117 | an object's values are walked in entry order, the first that yields something deciding |
| `JsonLd.ObjectWalkOrder` | price_tracker/scraper.py:102-117 | at an object whose own test finds nothing: the nested keys in order, then all values in entry order |
| `JsonLd.PriceWalkOrder` | price_tracker/scraper.py:102-117 | without an own price: `offers`, then `mainEntity`, then `itemOffered`, then every value in entry order |
| `JsonLd.CurrencyWalkOrder` | price_tracker/scraper.py:147-158 | without a declared currency, the values are walked in entry order, with no preferred key |
| `JsonLd.ItemsInOrder` | price_tracker/scraper.py:119-123 | a list yields (here and at lines 160-164) the walk of its first item that yields something |
| `JsonLd.PriceWalkSpec` | price_tracker/scraper.py:101-125 | the price walk finds a price exactly when some object inside states one, and the price is never blank |
| `JsonLd.CurrencyWalkSpec` | price_tracker/scraper.py:146-166 | the currency walk finds a currency exactly when some object inside declares one, and the currency is never empty |
| `JsonLd.FirstScriptValue` | price_tracker/scraper.py:127-139 | the script loop (and its twin at lines 168-180) returns what the first script yields, skipping blank and unparsable ones |
| `JsonLd.ExtractPriceFromJsonLd` | price_tracker/scraper.py:97-139 | the method computes `JsonLdPrice` |
| `JsonLd.ExtractCurrencyFromJsonLd` | price_tracker/scraper.py:142-180 | the method computes `JsonLdCurrency` |
| `JsonLd.JsonLdPriceSpec` | price_tracker/scraper.py:97-139 | the price is non-blank and stated in the first script block that is not blank, parses and states one; there is none exactly when no block does |
| `JsonLd.JsonLdCurrencySpec` | price_tracker/scraper.py:142-180 | the same for the currency a block declares |
| `Markup.Candidate` | price_tracker/scraper.py:57-70 | one candidate: nothing when blank; the stripped text content of markup when not blank; otherwise the stripped candidate |
| `Markup.FirstNonEmptyText` | price_tracker/scraper.py:55-72 | the loop computes `FirstNonEmpty` |
| `Markup.CandidateTextStripped` | price_tracker/scraper.py:60-70 | what a candidate yields is non-empty and stripped |
| `Markup.FirstNonEmptySpec` | price_tracker/scraper.py:55-72 | the pick is non-empty and stripped, and it is what the first candidate with a text yields; nothing exactly when no candidate has one |
| `Markup.BlankSkipped` | price_tracker/scraper.py:57-62 | blank candidates are skipped |
| `Markup.PlainCandidate` | price_tracker/scraper.py:60-70 | a candidate that is not markup is returned stripped |
| `MetaTags.FirstMetaText` | price_tracker/scraper.py:193-199 | the selector loop (and its twin at lines 210-215) computes `FirstMeta` |
| `MetaTags.ExtractPriceFromCommonMeta` | price_tracker/scraper.py:183-199 | the method computes `MetaPrice` |
| `MetaTags.ExtractCurrencyFromCommonMeta` | price_tracker/scraper.py:202-217 | the method computes `MetaCurrency` |
| `MetaTags.FirstMetaSpec` | price_tracker/scraper.py:183-217 | the text is non-empty and stripped and comes from the first selector that yields one; nothing exactly when none does |
| `MetaTags.MetaCurrencySpec` | price_tracker/scraper.py:210-217 | a meta currency exists exactly when a text is found; it is a known code or the text as found, and the upper-cased text when that is a known code |
| `Fallback.Admit` | price_tracker/scraper.py:269-278 | an admitted candidate is the stripped text, non-empty, at most 120 characters, with a reasonable price |
| `Fallback.Score` | price_tracker/scraper.py:280-289 | a score is at most 3 + 2 + 1 + 1 = 7 |
| `Fallback.ScoredText` | price_tracker/scraper.py:268-291 | a text is scored exactly when it is admitted, with the score of its stripped text |
| `Fallback.ScoreText` | price_tracker/scraper.py:280-289 | the `+=` steps compute `Score` |
| `Fallback.ScoreCandidates` | price_tracker/scraper.py:267-291 | the loop builds `ScoredList(texts)`: each admitted text in order, with its score |
| `Fallback.SortDescSpec` | price_tracker/scraper.py:294 | the sort orders by descending score and is a permutation |
| `Fallback.InsertBackHead` | price_tracker/scraper.py:294 | an entry goes first only when it beats the current first: ties keep the earlier entry (the sort is stable) |
| `Fallback.PickSpec` | price_tracker/scraper.py:267-295 | for any filter and score: the sorted list is empty exactly when every element is rejected, and its head scores highest, above every earlier element |
| `Fallback.BestTextSpec` | price_tracker/scraper.py:267-297 | the heuristic finds nothing exactly when no candidate is admitted; otherwise it picks the stripped text of the earliest candidate with the highest score |
| `Fallback.FallbackExtractPriceText` | price_tracker/scraper.py:236-297 | the method computes `FallbackPriceText` |
| `Fallback.FallbackPriceTextSpec` | price_tracker/scraper.py:236-297 | JSON-LD, then meta tags, then the heuristic; whatever is found is non-blank, and the heuristic's pick has a reasonable price |
| `Fallback.FallbackExtractCurrency` | price_tracker/scraper.py:220-233 | the method computes `FallbackCurrency` |
| `Fallback.FallbackCurrencySpec` | price_tracker/scraper.py:220-233 | the raw text's currency wins, then the JSON-LD, then the meta tags; a result is never empty, and there is none exactly when all three have none |
| `Locator.ExtractRawText` | price_tracker/scraper.py:300-345 | the method computes `RawText` |
| `Locator.RetryText` | price_tracker/scraper.py:329-343 | one retry computes `Retry`, its exception swallowed |
| `Locator.RawTextSpec` | price_tracker/scraper.py:300-345 | never both a text and an error; a text is non-empty and stripped; an error occurs exactly for a failing XPath query, a failing CSS query or a kind other than `css`/`xpath` |
| `Locator.RawTextErrors` | price_tracker/scraper.py:307-322 | the error messages: the XPath and CSS prefixes with the engine's message, and the fixed message for a wrong kind |
| `Locator.NoRetryWithPseudoElement` | price_tracker/scraper.py:324-345 | a CSS selector holding `::` is not retried |
| `Locator.NoRetryForXPath` | price_tracker/scraper.py:303-314 | an XPath selector is never retried |
| `Locator.RetryOrder` | price_tracker/scraper.py:328-345 | the `::text` retry comes first, then `::attr(content)`; a retry that fails is passed over |
| `Checker.CheckItemPrice` | price_tracker/scraper.py:376-408 | the method computes `Check` |
| `Checker.CheckOutcome` | price_tracker/scraper.py:383-408 | every result for a fetched page is consistent: success has a price that is the normalised raw text, no error, and the fallback currency; failure has no price, no currency and an error; a failure that keeps a raw text is a parse failure |
| `Checker.PricedOutcome` | price_tracker/scraper.py:402-408 | the raw text is kept whether or not it parses, and success holds exactly when it parses |
| `Checker.FetchErrorStops` | price_tracker/scraper.py:377-381 | a fetch error ends the check with the HTTP error message |
| `Checker.SelectorErrorStops` | price_tracker/scraper.py:386-389 | a selector error ends the check before any automatic tier |
| `Checker.BlankSelectorIgnored` | price_tracker/scraper.py:384-386 | a blank selector is the same as no selector |
| `Checker.NoMatchFallsThrough` | price_tracker/scraper.py:386-392 | a selector that matches nothing, without an error, falls through to the automatic tiers as if there were none |
| `Checker.SelectorTextUsed` | price_tracker/scraper.py:386-391 | a text the selector finds is the raw text |
| `Checker.AutomaticTiers` | price_tracker/scraper.py:391-400 | without a selector the raw text is the fallback's; with none, the advisory error is returned with no raw text |
| `Checker.Truncate` | price_tracker/scraper.py:367 | `s[:n]`: the first `min(|s|, n)` characters |
| `Checker.ItemNameSpec` | price_tracker/scraper.py:363-367 | a found name gives exactly the name with its whitespace runs collapsed, stripped and cut to 180 characters, so never the host name; it is not empty and begins like the name |
| `Checker.NameOrder` | price_tracker/scraper.py:357-363 | the name comes from the Open Graph title, else the Twitter title, else the `h1` texts, else the `<title>` |
| `Checker.CleanedStartsLikeName` | price_tracker/scraper.py:365-366 | collapsing and stripping a non-blank stripped name keeps its first character |
| `Checker.HostNamesItem` | price_tracker/scraper.py:369-371 | without a name, the host names the item |

## Left out

- Network. `requests.get`, `raise_for_status` and the timeouts are I/O. A fetch is an input, either an error message or a page.
- Parser. The HTML parser, its CSS and XPath engines and the text content of markup are library code. They are oracles in `Markup.Page`. Fixed queries are taken never to raise.
- Exceptions other than `JSONDecodeError` are not modelled. A JSON-LD block nested deeper than Python's recursion limit makes `json.loads`, or the recursive walk, raise `RecursionError`. Nothing in the check catches it, so the check of that item ends with the exception; the model always returns a result.
- `json.loads` is an oracle too. An object is its ordered list of entries, and a key's value is its first entry. Python keeps the last value of a duplicated key, so objects with duplicated keys are not modelled.
- A JSON number carries the text Python's `str()` gives its value (`Num(text)`). Number formatting is not modelled.
- Floating point. `float(Decimal(…))` and the float comparison of `_is_reasonable_price` are modelled on exact decimals. A text whose decimal lies just below 10,000,000, and which would round up to it as a float, counts as reasonable in the model.
- `Decimal(…)` is modelled only on texts made of a sign, digits, points and whitespace, which is all the numeric-run pattern can produce. Exponents, `NaN`, `Infinity` and underscores cannot occur.
- Character classes. `\d`, `\w`, `\b`, `[A-Z]` and the case mappings of `upper()`/`lower()` are taken on ASCII. Whitespace is the set `str.isspace` accepts.
- `Fallback.SortDesc` models the library's `list.sort(key=…, reverse=True)` as a stable insertion sort on a value, not in place. `SortDescSpec` and `InsertBackHead` state the properties of the library sort that the pick relies on.
- `Checker.ItemName`: `urlparse` is not modelled. The host (`netloc`) is a parameter. The fetch part of `detect_item_name` is left out as above.
- `CheckResult.price` is the exact decimal, not the float the tuple holds.
- Exception messages (`str(exc)`) are the strings the query oracle and the fetch input carry.
- The item is given by its `url`, `selector` and `selector_type`. A missing `selector_type` is `None`, which is reported as a wrong kind.
