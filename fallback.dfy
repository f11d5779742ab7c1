/** `_fallback_extract_price_text` and `_fallback_extract_currency`: where the
    price and the currency come from when no selector found them, ending in
    a heuristic that scores the page's visible texts. */
module Fallback {
  import opened Wrappers
  import opened Text
  import opened Decimals
  import opened PriceNormalizer
  import opened Currency
  import opened Markup
  import opened JsonLd
  import opened MetaTags

  /** Texts of elements whose class or id mentions "price", in any case. */
  const PriceClassQuery: string :=
    "//*[contains(translate(@class, 'PRICE', 'price'), 'price') "
    + "or contains(translate(@id, 'PRICE', 'price'), 'price')]/text()"

  /** Texts of elements whose class or id mentions "amount", in any case. */
  const AmountClassQuery: string :=
    "//*[contains(translate(@class, 'AMOUNT', 'amount'), 'amount') "
    + "or contains(translate(@id, 'AMOUNT', 'amount'), 'amount')]/text()"

  /** Texts holding one of five common currency symbols. */
  const SymbolTextQuery: string :=
    "//text()[contains(., '$') or contains(., '\U{20AC}') or contains(., '\U{A3}') "
    + "or contains(., '\U{A5}') or contains(., '\U{20B9}')]"

  /** The words that hint a text is a price. */
  const HintWords: seq<string> := ["price", "sale", "now", "from"]

  /** The longest text the heuristic considers. */
  const MaxCandidateLength: nat := 120

  /** The texts the heuristic considers, in the order they are collected. */
  function CandidateTexts(page: Page): seq<string> {
    page.xpath(PriceClassQuery) + page.xpath(AmountClassQuery) + page.xpath(SymbolTextQuery)
  }

  /** The stripped text, when it is not blank, at most 120 characters long
      and normalises to a reasonable price; otherwise nothing. */
  function Admit(text: string): (r: Option<string>)
    ensures r.Some? ==> r.value == Strip(text) && r.value != [] && |r.value| <= MaxCandidateLength
    ensures r.Some? ==> IsReasonablePrice(NormalizePrice(r.value))
  {
    if text == [] then None
    else
      var value := Strip(text);
      if value == [] || |value| > MaxCandidateLength then None
      else if !IsReasonablePrice(NormalizePrice(value)) then None
      else Some(value)
  }

  /** `re.search(r"\d+[.,]\d{2}\b", v)` finds a match whose separator is at `j`:
      a digit before it, two digits after it, and no word character after those. */
  predicate CentsAt(v: string, j: nat) {
    && 1 <= j && j + 3 <= |v|
    && IsDigit(v[j - 1]) && (v[j] == '.' || v[j] == ',') && IsDigit(v[j + 1]) && IsDigit(v[j + 2])
    && (j + 3 == |v| || !IsWordChar(v[j + 3]))
  }

  /** The text shows an amount with two decimal digits. */
  predicate HasCents(v: string) {
    exists j :: 1 <= j <= |v| && CentsAt(v, j)
  }

  /** A hint word occurs in the lower-cased text. */
  predicate HasHintWord(lower: string) {
    exists i :: 0 <= i < |HintWords| && IsInfix(HintWords[i], lower)
  }

  /** The score of an admitted text: 3 for a currency, 2 for two decimal
      digits, 1 for a hint word and 1 for a text shorter than 32 characters. */
  function Score(value: string): (n: nat)
    ensures n <= 7
  {
    (if CurrencyFromText(Some(value)).Some? then 3 else 0)
    + (if HasCents(value) then 2 else 0)
    + (if HasHintWord(Lower(value)) then 1 else 0)
    + (if |value| < 32 then 1 else 0)
  }

  /** A scored candidate: the `(score, value)` pairs of the source. */
  datatype Scored = Scored(score: nat, value: string)

  /** An admitted text with its score; nothing for a text not admitted. */
  function ScoredText(text: string): (r: Option<Scored>)
    ensures r.Some? <==> Admit(text).Some?
    ensures r.Some? ==> r.value == Scored(Score(r.value.value), r.value.value) && Admit(text) == Some(r.value.value)
  {
    match Admit(text)
    case None => None
    case Some(v) => Some(Scored(Score(v), v))
  }

  /** The values `f` yields for the elements, in order, those it rejects left out. */
  function FilterMap<T>(xs: seq<T>, f: T -> Option<Scored>): (r: seq<Scored>)
    ensures |r| <= |xs|
  {
    if xs == [] then []
    else
      FilterMap(xs[..|xs| - 1], f) +
        match f(xs[|xs| - 1])
        case None => []
        case Some(e) => [e]
  }

  /** The list `scored` the loop builds: every admitted text, in order, with
      its score. */
  function ScoredList(texts: seq<string>): seq<Scored> {
    FilterMap(texts, ScoredText)
  }

  /** The score of one text, summed as the source does. */
  method ScoreText(value: string) returns (score: nat)
    ensures score == Score(value)
  {
    score := 0;
    var currency := DetectCurrencyFromText(Some(value));
    if currency.Some? {
      score := score + 3;
    }
    if HasCents(value) {
      score := score + 2;
    }
    var lower := Lower(value);
    if HasHintWord(lower) {
      score := score + 1;
    }
    if |value| < 32 {
      score := score + 1;
    }
  }

  /** The loop that builds `scored`. */
  method ScoreCandidates(texts: seq<string>) returns (scored: seq<Scored>)
    ensures scored == ScoredList(texts)
  {
    scored := [];
    var i := 0;
    while i < |texts|
      invariant i <= |texts|
      invariant scored == FilterMap(texts[..i], ScoredText)
    {
      var text := texts[i];
      assert texts[..i + 1][..i] == texts[..i];
      i := i + 1;
      if text == [] {
        continue;
      }
      var value := Strip(text);
      if value == [] || |value| > MaxCandidateLength {
        continue;
      }
      if !IsReasonablePrice(NormalizePrice(value)) {
        continue;
      }
      var score := ScoreText(value);
      scored := scored + [Scored(score, value)];
    }
    assert texts[..i] == texts;
  }

  /** Scores never increase along the sequence. */
  predicate SortedDesc(s: seq<Scored>) {
    forall i, j :: 0 <= i < j < |s| ==> s[i].score >= s[j].score
  }

  /** `x` placed into a descending sequence after every element whose score
      is at least its own. */
  function InsertBack(s: seq<Scored>, x: Scored): (r: seq<Scored>)
    ensures |r| == |s| + 1
  {
    if s == [] then [x]
    else if s[|s| - 1].score >= x.score then s + [x]
    else InsertBack(s[..|s| - 1], x) + [s[|s| - 1]]
  }

  /** `scored.sort(key=lambda row: row[0], reverse=True)`: a stable sort by
      descending score, as an insertion sort. */
  function SortDesc(s: seq<Scored>): (r: seq<Scored>)
    ensures |r| == |s|
  {
    if s == [] then [] else InsertBack(SortDesc(s[..|s| - 1]), s[|s| - 1])
  }

  lemma {:induction false} InsertBackPermutes(s: seq<Scored>, x: Scored)
    ensures multiset(InsertBack(s, x)) == multiset(s) + multiset{x}
    decreases |s|
  {
    if s != [] && s[|s| - 1].score < x.score {
      InsertBackPermutes(s[..|s| - 1], x);
      assert s == s[..|s| - 1] + [s[|s| - 1]];
    }
  }

  /** Every element of the result scores at least `v` when `x` and every
      element of `s` do. */
  lemma {:induction false} InsertBackBound(s: seq<Scored>, x: Scored, v: nat)
    requires x.score >= v && forall i :: 0 <= i < |s| ==> s[i].score >= v
    ensures forall i :: 0 <= i < |s| + 1 ==> InsertBack(s, x)[i].score >= v
    decreases |s|
  {
    if s != [] && s[|s| - 1].score < x.score {
      InsertBackBound(s[..|s| - 1], x, v);
    }
  }

  lemma {:induction false} InsertBackSorted(s: seq<Scored>, x: Scored)
    requires SortedDesc(s)
    ensures SortedDesc(InsertBack(s, x))
    decreases |s|
  {
    if s != [] && s[|s| - 1].score < x.score {
      var init := s[..|s| - 1];
      var last := s[|s| - 1];
      InsertBackSorted(init, x);
      InsertBackBound(init, x, last.score);
    }
  }

  /** The sort orders by descending score and keeps every element. */
  lemma {:induction false} SortDescSpec(s: seq<Scored>)
    ensures SortedDesc(SortDesc(s))
    ensures multiset(SortDesc(s)) == multiset(s)
    decreases |s|
  {
    if s != [] {
      var init := s[..|s| - 1];
      SortDescSpec(init);
      InsertBackSorted(SortDesc(init), s[|s| - 1]);
      InsertBackPermutes(SortDesc(init), s[|s| - 1]);
      assert s == init + [s[|s| - 1]];
    }
  }

  /** Inserting into a descending sequence puts `x` first only when it beats
      the first element. */
  lemma {:induction false} InsertBackHead(s: seq<Scored>, x: Scored)
    requires SortedDesc(s)
    ensures InsertBack(s, x)[0] == if s == [] || x.score > s[0].score then x else s[0]
    decreases |s|
  {
    if s != [] && s[|s| - 1].score < x.score {
      var init := s[..|s| - 1];
      if init != [] {
        InsertBackHead(init, x);
      }
    }
  }

  /** The property of the pick, for a sequence `xs` filtered and scored by `f`:
      the entry at the head of the sorted list is what `f` yields for some
      element `k`; no element scores more, and every earlier one scores less. */
  predicate PickedAt<T>(xs: seq<T>, f: T -> Option<Scored>, head: Scored, k: nat) {
    && k < |xs| && f(xs[k]) == Some(head)
    && (forall j :: 0 <= j < |xs| && f(xs[j]).Some? ==> f(xs[j]).value.score <= head.score)
    && (forall j :: 0 <= j < k && f(xs[j]).Some? ==> f(xs[j]).value.score < head.score)
  }

  /** `f` rejects every element. */
  predicate AllRejected<T>(xs: seq<T>, f: T -> Option<Scored>) {
    forall k :: 0 <= k < |xs| ==> f(xs[k]).None?
  }

  /** The sorted list is empty exactly when `f` rejects every element; its
      head is the earliest best-scoring entry. */
  ghost predicate PickHolds<T>(xs: seq<T>, f: T -> Option<Scored>) {
    var s := FilterMap(xs, f);
    && (s == [] <==> AllRejected(xs, f))
    && (s != [] ==> exists k :: PickedAt(xs, f, SortDesc(s)[0], k))
  }

  lemma {:induction false} PickSpec<T>(xs: seq<T>, f: T -> Option<Scored>)
    ensures PickHolds(xs, f)
    decreases |xs|
  {
    if xs != [] {
      var init, x := xs[..|xs| - 1], xs[|xs| - 1];
      assert xs == init + [x];
      PickSpec(init, f);
      if f(x).None? {
        PickStepRejected(init, x, f);
      } else {
        PickStepAdmitted(init, x, f);
      }
    }
  }

  lemma PickStepRejected<T>(init: seq<T>, x: T, f: T -> Option<Scored>)
    requires PickHolds(init, f) && f(x).None?
    ensures PickHolds(init + [x], f)
  {
    FilterMapSnoc(init, x, f);
    var s := FilterMap(init, f);
    assert FilterMap(init + [x], f) == s;
    if s != [] {
      var k :| PickedAt(init, f, SortDesc(s)[0], k);
      PickedExtend(init, x, f, SortDesc(s)[0], k);
    } else {
      NoneSnoc(init, x, f);
    }
  }

  lemma PickStepAdmitted<T>(init: seq<T>, x: T, f: T -> Option<Scored>)
    requires PickHolds(init, f) && f(x).Some?
    ensures PickHolds(init + [x], f)
  {
    FilterMapSnoc(init, x, f);
    var s := FilterMap(init, f);
    var e := f(x).value;
    assert FilterMap(init + [x], f) == s + [e];
    SortSnocHead(s, e);
    if s == [] {
      PickedLast(init, x, f);
    } else {
      var k :| PickedAt(init, f, SortDesc(s)[0], k);
      if e.score > SortDesc(s)[0].score {
        PickedLast(init, x, f);
      } else {
        PickedExtend(init, x, f, SortDesc(s)[0], k);
      }
    }
  }

  lemma FilterMapSnoc<T>(init: seq<T>, x: T, f: T -> Option<Scored>)
    ensures FilterMap(init + [x], f) == FilterMap(init, f) + if f(x).Some? then [f(x).value] else []
  {
    assert (init + [x])[..|init|] == init;
  }

  lemma NoneSnoc<T>(init: seq<T>, x: T, f: T -> Option<Scored>)
    requires f(x).None? && AllRejected(init, f)
    ensures AllRejected(init + [x], f)
  {
    var xs := init + [x];
    assert forall j :: 0 <= j < |init| ==> xs[j] == init[j];
  }

  /** A pick stays the pick when a last element does not beat it. */
  lemma PickedExtend<T>(init: seq<T>, x: T, f: T -> Option<Scored>, head: Scored, k: nat)
    requires PickedAt(init, f, head, k)
    requires f(x).Some? ==> f(x).value.score <= head.score
    ensures PickedAt(init + [x], f, head, k)
  {
    var xs := init + [x];
    assert forall j :: 0 <= j < |init| ==> xs[j] == init[j];
  }

  /** A last element that beats everything before it is the pick. */
  lemma PickedLast<T>(init: seq<T>, x: T, f: T -> Option<Scored>)
    requires f(x).Some?
    requires forall j :: 0 <= j < |init| && f(init[j]).Some? ==> f(init[j]).value.score < f(x).value.score
    ensures PickedAt(init + [x], f, f(x).value, |init|)
  {
    var xs := init + [x];
    assert forall j :: 0 <= j < |init| ==> xs[j] == init[j];
  }

  /** The head of the sorted list after a last entry is added. */
  lemma SortSnocHead(s: seq<Scored>, e: Scored)
    ensures SortDesc(s + [e])[0] == if s == [] || e.score > SortDesc(s)[0].score then e else SortDesc(s)[0]
  {
    assert (s + [e])[..|s|] == s;
    SortDescSpec(s);
    InsertBackHead(SortDesc(s), e);
  }

  /** The heuristic's pick: the value at the head of the sorted list. */
  function BestText(texts: seq<string>): Option<string> {
    var scored := ScoredList(texts);
    if scored == [] then None else Some(SortDesc(scored)[0].value)
  }

  /** The heuristic finds nothing exactly when no text is admitted; otherwise it
      picks the stripped text of an admitted candidate with the highest score,
      the earliest of those. */
  lemma BestTextSpec(texts: seq<string>)
    ensures var r := BestText(texts);
      && (r.None? <==> forall k :: 0 <= k < |texts| ==> Admit(texts[k]).None?)
      && (r.Some? ==> exists k :: PickedAt(texts, ScoredText, Scored(Score(r.value), r.value), k))
  {
    PickSpec(texts, ScoredText);
    var s := ScoredList(texts);
    assert AllRejected(texts, ScoredText) <==> forall k :: 0 <= k < |texts| ==> Admit(texts[k]).None?;
    if s != [] {
      var k :| PickedAt(texts, ScoredText, SortDesc(s)[0], k);
      assert SortDesc(s)[0] == Scored(Score(SortDesc(s)[0].value), SortDesc(s)[0].value);
    }
  }

  /** `_fallback_extract_price_text`: the JSON-LD price, else the meta price,
      else the heuristic's pick among the page's texts. */
  function FallbackPriceText(page: Page): Option<string> {
    var fromJsonLd := JsonLdPrice(page);
    if fromJsonLd.Some? then fromJsonLd
    else
      var fromMeta := MetaPrice(page);
      if fromMeta.Some? then fromMeta
      else BestText(CandidateTexts(page))
  }

  /** `_fallback_extract_price_text`, as the source computes it. */
  method FallbackExtractPriceText(page: Page) returns (r: Option<string>)
    ensures r == FallbackPriceText(page)
  {
    var fromJsonLd := ExtractPriceFromJsonLd(page);
    if fromJsonLd.Some? {
      return fromJsonLd;
    }
    var fromMeta := ExtractPriceFromCommonMeta(page);
    if fromMeta.Some? {
      return fromMeta;
    }
    var candidates := page.xpath(PriceClassQuery);
    candidates := candidates + page.xpath(AmountClassQuery);
    candidates := candidates + page.xpath(SymbolTextQuery);
    var scored := ScoreCandidates(candidates);
    if scored != [] {
      var sorted := SortDesc(scored);
      return Some(sorted[0].value);
    }
    return None;
  }

  /** The tiers run in order: JSON-LD, then meta tags, then the heuristic.
      Whatever the fallback finds is a non-blank text; the heuristic's pick
      is moreover one that normalises to a reasonable price. */
  lemma FallbackPriceTextSpec(page: Page)
    ensures var r := FallbackPriceText(page);
      && (r.Some? ==> Strip(r.value) != [])
      && (JsonLdPrice(page).Some? ==> r == JsonLdPrice(page))
      && (JsonLdPrice(page).None? && MetaPrice(page).Some? ==> r == MetaPrice(page))
      && (JsonLdPrice(page).None? && MetaPrice(page).None? ==> r == BestText(CandidateTexts(page)))
      && (JsonLdPrice(page).None? && MetaPrice(page).None? && r.Some? ==>
            IsReasonablePrice(NormalizePrice(r.value)))
  {
    JsonLdPriceSpec(page);
    FirstMetaSpec(page, MetaPriceSelectors);
    var r := FallbackPriceText(page);
    if JsonLdPrice(page).None? && MetaPrice(page).Some? {
      StripStripped(r.value);
    }
    if JsonLdPrice(page).None? && MetaPrice(page).None? && r.Some? {
      BestTextSpec(CandidateTexts(page));
      StripStripped(r.value);
    }
  }

  /** `_fallback_extract_currency`: the currency in the price text, else the
      JSON-LD currency, else the meta currency. */
  function FallbackCurrency(page: Page, rawText: Option<string>): Option<string> {
    var fromText := CurrencyFromText(rawText);
    if fromText.Some? then fromText
    else
      var fromJsonLd := JsonLdCurrency(page);
      if fromJsonLd.Some? then fromJsonLd
      else MetaCurrency(page)
  }

  /** `_fallback_extract_currency`, as the source computes it. */
  method FallbackExtractCurrency(page: Page, rawText: Option<string>) returns (r: Option<string>)
    ensures r == FallbackCurrency(page, rawText)
  {
    var fromText := DetectCurrencyFromText(rawText);
    if fromText.Some? {
      return fromText;
    }
    var fromJsonLd := ExtractCurrencyFromJsonLd(page);
    if fromJsonLd.Some? {
      return fromJsonLd;
    }
    r := ExtractCurrencyFromCommonMeta(page);
  }

  /** The fallback currency is never empty; a currency the price text names
      overrides what the JSON-LD declares, which overrides the meta tags. */
  lemma FallbackCurrencySpec(page: Page, rawText: Option<string>)
    ensures var r := FallbackCurrency(page, rawText);
      && (r.Some? ==> r.value != [])
      && (CurrencyFromText(rawText).Some? ==> r == CurrencyFromText(rawText))
      && (CurrencyFromText(rawText).None? && JsonLdCurrency(page).Some? ==> r == JsonLdCurrency(page))
      && (CurrencyFromText(rawText).None? && JsonLdCurrency(page).None? ==> r == MetaCurrency(page))
      && (r.None? <==> CurrencyFromText(rawText).None? && JsonLdCurrency(page).None? && MetaCurrency(page).None?)
  {
    CurrencyFromTextKnown(rawText);
    JsonLdCurrencySpec(page);
    MetaCurrencySpec(page);
    var t := CurrencyFromText(rawText);
    if t.Some? {
      assert t.value in KnownCurrencyCodes || t.value in KnownCurrencySymbols;
      KnownNonEmpty(t.value);
    }
  }

  /** No known code or symbol is empty. */
  lemma KnownNonEmpty(v: string)
    requires v in KnownCurrencyCodes || v in KnownCurrencySymbols
    ensures v != []
  {
  }
}
