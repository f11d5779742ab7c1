/** The currency tables and `_detect_currency_from_text`: a currency code
    written as a word of its own, or else the first known symbol. */
module Currency {
  import opened Wrappers
  import opened Text

  /** `KNOWN_CURRENCY_CODES`. */
  const KnownCurrencyCodes: set<string> := {
    "USD", "EUR", "GBP", "JPY", "CNY", "INR", "CAD", "AUD", "CHF", "SEK",
    "NOK", "DKK", "PLN", "CZK", "HUF", "RON", "TRY", "BRL", "MXN", "ZAR",
    "AED", "SAR", "ILS", "KRW", "RUB"
  }

  /** `KNOWN_CURRENCY_SYMBOLS`, in the order they are tried: "R$" before "$". */
  const KnownCurrencySymbols: seq<string> := [
    "R$", "z\U{142}", "lei", "\U{20AC}", "\U{A3}", "$", "\U{A5}", "\U{20A9}", "\U{20B9}",
    "\U{20BD}", "\U{20BA}", "\U{20B4}", "\U{20AB}", "\U{20A6}", "\U{20AA}", "\U{20B1}"
  ]

  predicate IsUpperLetter(c: char) { 'A' <= c <= 'Z' }

  /** `\b[A-Z]{3}\b` matches the three characters from `i`. */
  predicate CodeWordAt(u: string, i: nat) {
    && i + 3 <= |u|
    && IsUpperLetter(u[i]) && IsUpperLetter(u[i + 1]) && IsUpperLetter(u[i + 2])
    && (i == 0 || !IsWordChar(u[i - 1]))
    && (i + 3 == |u| || !IsWordChar(u[i + 3]))
  }

  /** The leftmost position at or after `i` where a code word starts. */
  function FirstCodeWordFrom(u: string, i: nat): (r: Option<nat>)
    requires i <= |u|
    ensures r.Some? ==> i <= r.value && CodeWordAt(u, r.value)
    decreases |u| - i
  {
    if i == |u| then None
    else if CodeWordAt(u, i) then Some(i)
    else FirstCodeWordFrom(u, i + 1)
  }

  /** The search finds the leftmost code word, and nothing only when there is none. */
  lemma {:induction false} FirstCodeWordFromSpec(u: string, i: nat)
    requires i <= |u|
    ensures var r := FirstCodeWordFrom(u, i);
      && (r.Some? ==> forall k :: i <= k < r.value ==> !CodeWordAt(u, k))
      && (r.None? ==> forall k :: i <= k < |u| ==> !CodeWordAt(u, k))
    decreases |u| - i
  {
    if i < |u| && !CodeWordAt(u, i) {
      FirstCodeWordFromSpec(u, i + 1);
    }
  }

  /** `re.search(r"\b[A-Z]{3}\b", u)`: the first three-letter capital word. */
  function CodeWord(u: string): (r: Option<string>)
    ensures r.Some? ==> |r.value| == 3
  {
    match FirstCodeWordFrom(u, 0)
    case None => None
    case Some(i) => Some(u[i..i + 3])
  }

  /** The symbol, when the text contains it. */
  function SymbolFound(text: string, symbol: string): Option<string> {
    if IsInfix(symbol, text) then Some(symbol) else None
  }

  /** The test the symbol loop applies to each symbol. */
  function SymbolIn(text: string): string -> Option<string> {
    symbol => SymbolFound(text, symbol)
  }

  /** `_detect_currency_from_text`. Nothing for a missing or empty text; the
      first capital word, when it is a known code; otherwise the first symbol
      of the table that occurs in the text. */
  function CurrencyFromText(text: Option<string>): Option<string> {
    if text.None? || text.value == [] then None
    else
      var code := CodeWord(Upper(text.value));
      if code.Some? && code.value in KnownCurrencyCodes then code
      else FirstSome(KnownCurrencySymbols, SymbolIn(text.value))
  }

  /** `_detect_currency_from_text`, with the symbol table walked by a loop. */
  method DetectCurrencyFromText(text: Option<string>) returns (r: Option<string>)
    ensures r == CurrencyFromText(text)
  {
    if text.None? || text.value == [] {
      return None;
    }
    var code := CodeWord(Upper(text.value));
    if code.Some? && code.value in KnownCurrencyCodes {
      return code;
    }
    r := FirstSymbolIn(KnownCurrencySymbols, text.value);
  }

  /** `for symbol in symbols: if symbol in text: return symbol`. */
  method FirstSymbolIn(symbols: seq<string>, text: string) returns (r: Option<string>)
    ensures r == FirstSome(symbols, SymbolIn(text))
  {
    var i := 0;
    while i < |symbols|
      invariant i <= |symbols|
      invariant FirstSome(symbols[i..], SymbolIn(text)) == FirstSome(symbols, SymbolIn(text))
    {
      FirstSomeStep(symbols, SymbolIn(text), i);
      if IsInfix(symbols[i], text) {
        return Some(symbols[i]);
      }
      i := i + 1;
    }
    return None;
  }

  /** The detected currency is always a known code or a known symbol, and there
      is none for a missing or empty text. */
  lemma CurrencyFromTextKnown(text: Option<string>)
    ensures var r := CurrencyFromText(text);
      && (r.Some? ==> r.value in KnownCurrencyCodes || r.value in KnownCurrencySymbols)
      && (text.None? || text.value == [] ==> r.None?)
  {
  }

  /** A known code written as the first capital word wins over every symbol. */
  lemma CodeWins(t: string)
    requires t != [] && CodeWord(Upper(t)).Some? && CodeWord(Upper(t)).value in KnownCurrencyCodes
    ensures CurrencyFromText(Some(t)) == CodeWord(Upper(t))
  {
  }

  /** Without a known code word, the first symbol of the table that occurs in
      the text is the result. */
  lemma SymbolPriority(t: string, k: nat)
    requires t != [] && !(CodeWord(Upper(t)).Some? && CodeWord(Upper(t)).value in KnownCurrencyCodes)
    requires k < |KnownCurrencySymbols| && IsInfix(KnownCurrencySymbols[k], t)
    requires forall j :: 0 <= j < k ==> !IsInfix(KnownCurrencySymbols[j], t)
    ensures CurrencyFromText(Some(t)) == Some(KnownCurrencySymbols[k])
  {
    FirstSomeAt(KnownCurrencySymbols, SymbolIn(t), k);
  }

  /** When "R$" occurs and no known code word precedes, the result is "R$", never "$". */
  lemma RealBeforeDollar(t: string)
    requires t != [] && !(CodeWord(Upper(t)).Some? && CodeWord(Upper(t)).value in KnownCurrencyCodes)
    requires IsInfix("R$", t)
    ensures CurrencyFromText(Some(t)) == Some("R$")
  {
    SymbolPriority(t, 0);
  }

  /** Without a known code word and without any symbol there is no currency. */
  lemma NoSymbolNoCurrency(t: string)
    requires !(CodeWord(Upper(t)).Some? && CodeWord(Upper(t)).value in KnownCurrencyCodes)
    requires forall j :: 0 <= j < |KnownCurrencySymbols| ==> !IsInfix(KnownCurrencySymbols[j], t)
    ensures CurrencyFromText(Some(t)) == None
  {
  }

  /** The code of a known currency upper-cased, any other value unchanged:
      the normalisation both the JSON-LD and the meta extractor apply. */
  function CanonicalCurrency(v: string): (r: string)
    ensures r in KnownCurrencyCodes <==> Upper(v) in KnownCurrencyCodes
    ensures r == v || r == Upper(v)
  {
    var u := Upper(v);
    if u in KnownCurrencyCodes then u
    else
      assert v !in KnownCurrencyCodes by {
        if v in KnownCurrencyCodes { UpperCode(v); }
      }
      v
  }

  /** The known codes are upper case already. */
  lemma UpperCode(v: string)
    requires v in KnownCurrencyCodes
    ensures Upper(v) == v
  {
    assert |v| == 3 && forall i :: 0 <= i < 3 ==> IsUpperLetter(v[i]);
  }

  /** Normalising a currency twice changes nothing more. */
  lemma CanonicalCurrencyIdempotent(v: string)
    ensures CanonicalCurrency(CanonicalCurrency(v)) == CanonicalCurrency(v)
  {
    UpperIdempotent(v);
    var r := CanonicalCurrency(v);
    if r in KnownCurrencyCodes {
      UpperCode(r);
    }
  }

  /** A symbol that has a character the text lacks does not occur in it. */
  lemma NotInfixByChar(p: string, t: string, i: nat)
    requires i < |p| && p[i] !in t
    ensures !IsInfix(p, t)
  {
    if IsInfix(p, t) {
      InfixChars(p, t, i);
    }
  }

  /** Only the first capital word is tested: in "NOW 10 EUR" that word is
      "NOW", which is no currency, so the later "EUR" is never seen. */
  lemma FirstWordOnly()
    ensures CurrencyFromText(Some("NOW 10 EUR")) == None
  {
    NowWord();
    NowNoSymbol();
    assert "NOW" !in KnownCurrencyCodes;
    NoSymbolNoCurrency("NOW 10 EUR");
  }

  lemma NowWord()
    ensures CodeWord(Upper("NOW 10 EUR")) == Some("NOW")
  {
    var t := "NOW 10 EUR";
    assert Upper(t) == t;
    assert CodeWordAt(t, 0);
    assert t[0..3] == "NOW";
  }

  lemma NowNoSymbol()
    ensures forall j :: 0 <= j < |KnownCurrencySymbols| ==> !IsInfix(KnownCurrencySymbols[j], "NOW 10 EUR")
  {
    var t := "NOW 10 EUR";
    forall j | 0 <= j < |KnownCurrencySymbols| ensures !IsInfix(KnownCurrencySymbols[j], t) {
      var p := KnownCurrencySymbols[j];
      if j == 0 { NotInfixByChar(p, t, 1); } else { NotInfixByChar(p, t, 0); }
    }
  }

  /** A code after the amount is found: "12.50 usd" is in US dollars. */
  lemma TrailingCode()
    ensures CurrencyFromText(Some("12.50 usd")) == Some("USD")
  {
    UsdWord();
    CodeWins("12.50 usd");
  }

  lemma UsdWord()
    ensures CodeWord(Upper("12.50 usd")) == Some("USD")
  {
    assert Upper("12.50 usd") == "12.50 USD";
    var u := "12.50 USD";
    assert CodeWordAt(u, 6);
    assert u[6..9] == "USD";
  }
}
