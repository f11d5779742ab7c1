/** `_extract_price_from_json_ld` and `_extract_currency_from_json_ld`: the
    structured data a shop embeds in `<script type="application/ld+json">`
    blocks, searched depth first. */
module JsonLd {
  import opened Wrappers
  import opened Text
  import opened JsonData
  import opened Markup
  import opened Currency

  /** The query both extractors use for the script blocks. */
  const LdJsonQuery: string := "script[type=\"application/ld+json\"]::text"

  /** The keys whose value is taken as the price itself, in this order. */
  const PriceKeys: seq<string> := ["price", "lowPrice", "highPrice"]

  /** The keys under which an object nests the priced thing, tried before
      the other values. */
  const NestedKeys: seq<string> := ["offers", "mainEntity", "itemOffered"]

  /** `str(value)` for a string, a number or a boolean (a `bool` is an `int`
      in Python, so `true` becomes "True"); nothing for other values. */
  function ScalarText(v: Json): (r: Option<string>)
    ensures r.Some? <==> v.Bool? || v.Num? || v.Str?
    ensures v.Str? ==> r == Some(v.s)
  {
    match v
    case Bool(b) => Some(if b then "True" else "False")
    case Num(t) => Some(t)
    case Str(s) => Some(s)
    case _ => None
  }

  /** The price an object states under `key`: its scalar text, when that
      is not blank. */
  function PriceAt(entries: seq<(string, Json)>, key: string): (r: Option<string>)
    ensures r.Some? ==> Strip(r.value) != []
  {
    match Get(entries, key)
    case None => None
    case Some(v) =>
      var t := ScalarText(v);
      if t.Some? && Strip(t.value) != [] then t else None
  }

  function PriceAtOf(entries: seq<(string, Json)>): string -> Option<string> {
    key => PriceAt(entries, key)
  }

  /** The first of "price", "lowPrice" and "highPrice" that an object states. */
  function DirectPrice(entries: seq<(string, Json)>): Option<string> {
    FirstSome(PriceKeys, PriceAtOf(entries))
  }

  /** A price an object states itself is never blank. */
  lemma DirectPriceBlank(es: seq<(string, Json)>)
    ensures DirectPrice(es).Some? ==> Strip(DirectPrice(es).value) != []
  {
    var r := DirectPrice(es);
    if r.Some? {
      var k :| 0 <= k < |PriceKeys| && PriceAtOf(es)(PriceKeys[k]) == r;
    }
  }

  /** The currency an object declares under "priceCurrency": a non-blank
      string, stripped, upper-cased when it is a known code. */
  function DeclaredCurrency(es: seq<(string, Json)>): (r: Option<string>)
    ensures r.Some? ==> r.value != []
  {
    match Get(es, "priceCurrency")
    case Some(Str(c)) =>
      if Strip(c) != [] then Some(CanonicalCurrency(Strip(c))) else None
    case _ => None
  }

  /** An object declares a currency exactly when its "priceCurrency" is a
      string that is not blank; the declared currency is that string
      stripped, and upper-cased exactly when that makes it a known code. */
  lemma DeclaredCurrencySpec(es: seq<(string, Json)>)
    ensures var r := DeclaredCurrency(es);
      var v := Get(es, "priceCurrency");
      && (r.Some? <==> v.Some? && v.value.Str? && Strip(v.value.s) != [])
      && (r.Some? && Upper(Strip(v.value.s)) in KnownCurrencyCodes ==> r.value == Upper(Strip(v.value.s)))
      && (r.Some? && Upper(Strip(v.value.s)) !in KnownCurrencyCodes ==> r.value == Strip(v.value.s))
  {
  }

  /** The depth-first search both `_walk` functions perform: at an object,
      what `own` finds in it; else the search of the value under the first of
      the `nested` keys that yields something; else the first result among
      its values in order. At a list, the first result among its items.
      Anything else yields nothing. */
  function Walk(own: seq<(string, Json)> -> Option<string>, nested: seq<string>, node: Json): Option<string>
    decreases node, 2
  {
    match node
    case Map(es) =>
      var found := own(es);
      if found.Some? then found
      else
        var under := NestedWalk(own, nested, es, nested);
        if under.Some? then under else ValuesWalk(own, nested, es, 0)
    case List(items) => ItemsWalk(own, nested, items, 0)
    case _ => None
  }

  /** The search of the value under the first of `keys` that yields something. */
  function NestedWalk(own: seq<(string, Json)> -> Option<string>, nested: seq<string>,
                      es: seq<(string, Json)>, keys: seq<string>): Option<string>
    decreases Map(es), 1, |keys|
  {
    if keys == [] then None
    else
      var k := KeyIndex(es, keys[0], 0);
      var r := if k < |es| then Walk(own, nested, es[k].1) else None;
      if r.Some? then r else NestedWalk(own, nested, es, keys[1..])
  }

  /** The search of the values from the `i`-th entry on. */
  function ValuesWalk(own: seq<(string, Json)> -> Option<string>, nested: seq<string>,
                      es: seq<(string, Json)>, i: nat): Option<string>
    requires i <= |es|
    decreases Map(es), 1, |es| - i
  {
    if i == |es| then None
    else
      var r := Walk(own, nested, es[i].1);
      if r.Some? then r else ValuesWalk(own, nested, es, i + 1)
  }

  /** The search of the items from the `i`-th on. */
  function ItemsWalk(own: seq<(string, Json)> -> Option<string>, nested: seq<string>,
                     items: seq<Json>, i: nat): Option<string>
    requires i <= |items|
    decreases List(items), 1, |items| - i
  {
    if i == |items| then None
    else
      var r := Walk(own, nested, items[i]);
      if r.Some? then r else ItemsWalk(own, nested, items, i + 1)
  }

  /** `_walk` of the price extractor. */
  function PriceWalk(node: Json): Option<string> {
    Walk(DirectPrice, NestedKeys, node)
  }

  /** `_walk` of the currency extractor, which has no preferred keys. */
  function CurrencyWalk(node: Json): Option<string> {
    Walk(DeclaredCurrency, [], node)
  }

  /** Reference: `v` is what `own` finds in some object inside `node`. */
  predicate StatedIn(own: seq<(string, Json)> -> Option<string>, node: Json, v: string)
    decreases node
  {
    match node
    case Map(es) => own(es) == Some(v) || exists i :: 0 <= i < |es| && StatedIn(own, es[i].1, v)
    case List(items) => exists i :: 0 <= i < |items| && StatedIn(own, items[i], v)
    case _ => false
  }

  /** Reference: `own` finds something in some object inside `node`. */
  predicate AnyStated(own: seq<(string, Json)> -> Option<string>, node: Json)
    decreases node
  {
    match node
    case Map(es) => own(es).Some? || exists i :: 0 <= i < |es| && AnyStated(own, es[i].1)
    case List(items) => exists i :: 0 <= i < |items| && AnyStated(own, items[i])
    case _ => false
  }

  /** Whatever the nested keys are, the search finds something exactly when
      some object inside states something, and what it finds is so stated. */
  lemma {:induction false} WalkSpec(own: seq<(string, Json)> -> Option<string>, nested: seq<string>, node: Json)
    ensures var r := Walk(own, nested, node);
      && (r.Some? ==> StatedIn(own, node, r.value))
      && (r.None? <==> !AnyStated(own, node))
    decreases node, 2
  {
    match node
    case Map(es) =>
      if own(es).None? {
        NestedWalkSpec(own, nested, es, nested);
        ValuesWalkSpec(own, nested, es, 0);
      }
    case List(items) =>
      ItemsWalkSpec(own, nested, items, 0);
    case _ =>
  }

  lemma {:induction false} NestedWalkSpec(own: seq<(string, Json)> -> Option<string>, nested: seq<string>,
                                          es: seq<(string, Json)>, keys: seq<string>)
    ensures var r := NestedWalk(own, nested, es, keys);
      r.Some? ==> exists j :: 0 <= j < |es| && StatedIn(own, es[j].1, r.value) && AnyStated(own, es[j].1)
    decreases Map(es), 1, |keys|
  {
    if keys != [] {
      var k := KeyIndex(es, keys[0], 0);
      if k < |es| {
        WalkSpec(own, nested, es[k].1);
      }
      NestedWalkSpec(own, nested, es, keys[1..]);
    }
  }

  lemma {:induction false} ValuesWalkSpec(own: seq<(string, Json)> -> Option<string>, nested: seq<string>,
                                          es: seq<(string, Json)>, i: nat)
    requires i <= |es|
    ensures var r := ValuesWalk(own, nested, es, i);
      && (r.Some? ==> exists j :: i <= j < |es| && StatedIn(own, es[j].1, r.value))
      && (r.None? <==> forall j :: i <= j < |es| ==> !AnyStated(own, es[j].1))
    decreases Map(es), 1, |es| - i
  {
    if i < |es| {
      WalkSpec(own, nested, es[i].1);
      ValuesWalkSpec(own, nested, es, i + 1);
    }
  }

  lemma {:induction false} ItemsWalkSpec(own: seq<(string, Json)> -> Option<string>, nested: seq<string>,
                                         items: seq<Json>, i: nat)
    requires i <= |items|
    ensures var r := ItemsWalk(own, nested, items, i);
      && (r.Some? ==> exists j :: i <= j < |items| && StatedIn(own, items[j], r.value))
      && (r.None? <==> forall j :: i <= j < |items| ==> !AnyStated(own, items[j]))
    decreases List(items), 1, |items| - i
  {
    if i < |items| {
      WalkSpec(own, nested, items[i]);
      ItemsWalkSpec(own, nested, items, i + 1);
    }
  }

  /** What is stated in an object inside `node` is what `own` finds in some
      object. */
  lemma {:induction false} StatedByOwn(own: seq<(string, Json)> -> Option<string>, node: Json, v: string)
    requires StatedIn(own, node, v)
    ensures exists es :: own(es) == Some(v)
    decreases node
  {
    match node
    case Map(es) =>
      if own(es) != Some(v) {
        var i :| 0 <= i < |es| && StatedIn(own, es[i].1, v);
        StatedByOwn(own, es[i].1, v);
      }
    case List(items) =>
      var i :| 0 <= i < |items| && StatedIn(own, items[i], v);
      StatedByOwn(own, items[i], v);
  }

  function WalkOf(own: seq<(string, Json)> -> Option<string>, nested: seq<string>): Json -> Option<string> {
    node => Walk(own, nested, node)
  }

  /** A list yields the search of its first item that yields anything. */
  lemma {:induction false} ItemsInOrder(own: seq<(string, Json)> -> Option<string>, nested: seq<string>,
                                        items: seq<Json>, i: nat)
    requires i <= |items|
    ensures ItemsWalk(own, nested, items, i) == FirstSome(items[i..], WalkOf(own, nested))
    decreases |items| - i
  {
    if i < |items| {
      FirstSomeStep(items, WalkOf(own, nested), i);
      ItemsInOrder(own, nested, items, i + 1);
    } else {
      assert items[i..] == [];
    }
  }

  /** The search `_walk(node.get(key))` of one nested key: nothing for a
      missing key. */
  function NestedAt(own: seq<(string, Json)> -> Option<string>, nested: seq<string>,
                    es: seq<(string, Json)>, key: string): Option<string> {
    match Get(es, key)
    case None => None
    case Some(v) => Walk(own, nested, v)
  }

  function NestedAtOf(own: seq<(string, Json)> -> Option<string>, nested: seq<string>,
                      es: seq<(string, Json)>): string -> Option<string> {
    key => NestedAt(own, nested, es, key)
  }

  /** The nested keys are tried in their order: the first one whose value
      yields something decides. */
  lemma {:induction false} NestedInOrder(own: seq<(string, Json)> -> Option<string>, nested: seq<string>,
                                         es: seq<(string, Json)>, keys: seq<string>)
    ensures NestedWalk(own, nested, es, keys) == FirstSome(keys, NestedAtOf(own, nested, es))
    decreases |keys|
  {
    if keys != [] {
      assert NestedAtOf(own, nested, es)(keys[0]) ==
        (var k := KeyIndex(es, keys[0], 0); if k < |es| then Walk(own, nested, es[k].1) else None);
      NestedInOrder(own, nested, es, keys[1..]);
    }
  }

  /** `node.values()`: the values of an object's entries, in entry order. */
  function Values(es: seq<(string, Json)>): (r: seq<Json>)
    ensures |r| == |es| && forall j :: 0 <= j < |es| ==> r[j] == es[j].1
  {
    seq(|es|, j requires 0 <= j < |es| => es[j].1)
  }

  /** An object's values are walked in entry order: the first one that
      yields something decides. */
  lemma {:induction false} ValuesInOrder(own: seq<(string, Json)> -> Option<string>, nested: seq<string>,
                                         es: seq<(string, Json)>, i: nat)
    requires i <= |es|
    ensures ValuesWalk(own, nested, es, i) == FirstSome(Values(es)[i..], WalkOf(own, nested))
    decreases |es| - i
  {
    if i < |es| {
      FirstSomeStep(Values(es), WalkOf(own, nested), i);
      ValuesInOrder(own, nested, es, i + 1);
    } else {
      assert Values(es)[i..] == [];
    }
  }

  /** At an object where `own` finds nothing: the nested keys in their order,
      then every value in entry order. */
  lemma ObjectWalkOrder(own: seq<(string, Json)> -> Option<string>, nested: seq<string>, es: seq<(string, Json)>)
    requires own(es).None?
    ensures Walk(own, nested, Map(es)) ==
      if FirstSome(nested, NestedAtOf(own, nested, es)).Some? then FirstSome(nested, NestedAtOf(own, nested, es))
      else FirstSome(Values(es), WalkOf(own, nested))
  {
    NestedInOrder(own, nested, es, nested);
    ValuesInOrder(own, nested, es, 0);
    assert Values(es)[0..] == Values(es);
  }

  /** The whole order of the price walk at an object without a price of its
      own: "offers", then "mainEntity", then "itemOffered", then every value
      in entry order. */
  lemma PriceWalkOrder(es: seq<(string, Json)>)
    requires DirectPrice(es).None?
    ensures var f := NestedAtOf(DirectPrice, NestedKeys, es);
      PriceWalk(Map(es)) ==
        if f("offers").Some? then f("offers")
        else if f("mainEntity").Some? then f("mainEntity")
        else if f("itemOffered").Some? then f("itemOffered")
        else FirstSome(Values(es), WalkOf(DirectPrice, NestedKeys))
  {
    ObjectWalkOrder(DirectPrice, NestedKeys, es);
    FirstSomeOfThree(NestedKeys, NestedAtOf(DirectPrice, NestedKeys, es));
  }

  /** The currency walk has no preferred keys: at an object that declares no
      currency, its values are walked in entry order. */
  lemma CurrencyWalkOrder(es: seq<(string, Json)>)
    requires DeclaredCurrency(es).None?
    ensures CurrencyWalk(Map(es)) == FirstSome(Values(es), WalkOf(DeclaredCurrency, []))
  {
    ObjectWalkOrder(DeclaredCurrency, [], es);
  }

  /** The price walk finds a price exactly when some object inside states
      one; what it finds is such a price, and it is never blank (so the
      truthiness tests on its result are tests for a found price). */
  lemma PriceWalkSpec(node: Json)
    ensures var r := PriceWalk(node);
      && (r.Some? ==> StatedIn(DirectPrice, node, r.value) && Strip(r.value) != [])
      && (r.None? <==> !AnyStated(DirectPrice, node))
  {
    var r := PriceWalk(node);
    WalkSpec(DirectPrice, NestedKeys, node);
    if r.Some? {
      StatedByOwn(DirectPrice, node, r.value);
      var es :| DirectPrice(es) == Some(r.value);
      DirectPriceBlank(es);
    }
  }

  /** The currency walk finds a currency exactly when some object inside
      declares one; what it finds is such a declared currency, never empty. */
  lemma CurrencyWalkSpec(node: Json)
    ensures var r := CurrencyWalk(node);
      && (r.Some? ==> StatedIn(DeclaredCurrency, node, r.value) && r.value != [])
      && (r.None? <==> !AnyStated(DeclaredCurrency, node))
  {
    var r := CurrencyWalk(node);
    WalkSpec(DeclaredCurrency, [], node);
    if r.Some? {
      StatedByOwn(DeclaredCurrency, node, r.value);
    }
  }

  /** An object's own price comes first: "price" wins over "lowPrice",
      which wins over "highPrice". */
  lemma PriceKeyOrder(es: seq<(string, Json)>)
    ensures PriceAt(es, "price").Some? ==> PriceWalk(Map(es)) == PriceAt(es, "price")
    ensures PriceAt(es, "price").None? && PriceAt(es, "lowPrice").Some? ==>
      PriceWalk(Map(es)) == PriceAt(es, "lowPrice")
    ensures PriceAt(es, "price").None? && PriceAt(es, "lowPrice").None? && PriceAt(es, "highPrice").Some? ==>
      PriceWalk(Map(es)) == PriceAt(es, "highPrice")
  {
    DirectPriceOrder(es);
  }

  lemma DirectPriceOrder(es: seq<(string, Json)>)
    ensures DirectPrice(es) ==
      if PriceAt(es, "price").Some? then PriceAt(es, "price")
      else if PriceAt(es, "lowPrice").Some? then PriceAt(es, "lowPrice")
      else PriceAt(es, "highPrice")
  {
    var f := PriceAtOf(es);
    assert PriceKeys[0] == "price" && PriceKeys[1] == "lowPrice" && PriceKeys[2] == "highPrice";
    FirstSomeStep(PriceKeys, f, 0);
    FirstSomeStep(PriceKeys, f, 1);
    FirstSomeStep(PriceKeys, f, 2);
    assert PriceKeys[3..] == [];
  }

  /** Without a price of its own, an object's "offers" are searched before any
      other of its values, wherever "offers" stands among them. */
  lemma OffersFirst(es: seq<(string, Json)>, offers: Json)
    requires DirectPrice(es).None?
    requires Get(es, "offers") == Some(offers) && PriceWalk(offers).Some?
    ensures PriceWalk(Map(es)) == PriceWalk(offers)
  {
    assert NestedKeys[0] == "offers";
    var k := KeyIndex(es, "offers", 0);
    assert k < |es| && es[k].1 == offers;
    assert NestedWalk(DirectPrice, NestedKeys, es, NestedKeys) == Walk(DirectPrice, NestedKeys, offers);
  }

  /** A boolean price is taken as the text "True" or "False". */
  lemma BooleanPrice()
    ensures PriceWalk(Map([("price", Bool(true))])) == Some("True")
  {
    var es := [("price", Bool(true))];
    assert KeyIndex(es, "price", 0) == 0;
    StripStripped("True");
    FirstSomeStep(PriceKeys, PriceAtOf(es), 0);
  }

  /** A declared "usd" is reported as the code "USD". */
  lemma LowerCaseCode()
    ensures CurrencyWalk(Map([("priceCurrency", Str("usd"))])) == Some("USD")
  {
    var es := [("priceCurrency", Str("usd"))];
    assert KeyIndex(es, "priceCurrency", 0) == 0;
    StripStripped("usd");
    assert Upper("usd") == "USD";
  }

  /** What one script block yields: nothing when it is blank or is not JSON,
      otherwise what the walk finds in the parsed payload. */
  function ScriptValue(parseJson: string -> Option<Json>, walk: Json -> Option<string>, script: string): Option<string> {
    if script == [] || Strip(script) == [] then None
    else
      match parseJson(script)
      case None => None
      case Some(payload) => walk(payload)
  }

  function ScriptValueOf(parseJson: string -> Option<Json>, walk: Json -> Option<string>): string -> Option<string> {
    script => ScriptValue(parseJson, walk, script)
  }

  /** `_extract_price_from_json_ld`: the first script block that yields a price. */
  function JsonLdPrice(page: Page): Option<string> {
    FirstSome(page.css(LdJsonQuery), ScriptValueOf(page.parseJson, PriceWalk))
  }

  /** `_extract_currency_from_json_ld`: the first script block that yields a currency. */
  function JsonLdCurrency(page: Page): Option<string> {
    FirstSome(page.css(LdJsonQuery), ScriptValueOf(page.parseJson, CurrencyWalk))
  }

  /** The loop over the script blocks both extractors share. */
  method FirstScriptValue(scripts: seq<string>, parseJson: string -> Option<Json>, walk: Json -> Option<string>)
    returns (r: Option<string>)
    ensures r == FirstSome(scripts, ScriptValueOf(parseJson, walk))
  {
    var i := 0;
    while i < |scripts|
      invariant i <= |scripts|
      invariant FirstSome(scripts[i..], ScriptValueOf(parseJson, walk)) == FirstSome(scripts, ScriptValueOf(parseJson, walk))
    {
      FirstSomeStep(scripts, ScriptValueOf(parseJson, walk), i);
      var script := scripts[i];
      i := i + 1;
      if script == [] || Strip(script) == [] {
        continue;
      }
      var payload := parseJson(script);
      if payload.None? {
        continue;
      }
      var found := walk(payload.value);
      if found.Some? {
        return found;
      }
    }
    return None;
  }

  /** `_extract_price_from_json_ld`, as the loop it is. */
  method ExtractPriceFromJsonLd(page: Page) returns (r: Option<string>)
    ensures r == JsonLdPrice(page)
  {
    r := FirstScriptValue(page.css(LdJsonQuery), page.parseJson, PriceWalk);
  }

  /** `_extract_currency_from_json_ld`, as the loop it is. */
  method ExtractCurrencyFromJsonLd(page: Page) returns (r: Option<string>)
    ensures r == JsonLdCurrency(page)
  {
    r := FirstScriptValue(page.css(LdJsonQuery), page.parseJson, CurrencyWalk);
  }

  /** A script block that yields nothing to `own`: blank, not JSON, or with
      nothing stated inside. */
  predicate Silent(parseJson: string -> Option<Json>, own: seq<(string, Json)> -> Option<string>, script: string) {
    IsBlank(script) || parseJson(script).None? || !AnyStated(own, parseJson(script).value)
  }

  /** The JSON-LD price is a non-blank price stated in the first script block
      that is not silent; there is none exactly when every block is. */
  lemma JsonLdPriceSpec(page: Page)
    ensures var scripts := page.css(LdJsonQuery);
      var r := JsonLdPrice(page);
      && (r.Some? ==> (Strip(r.value) != [] &&
            exists k :: 0 <= k < |scripts| && page.parseJson(scripts[k]).Some? &&
              StatedIn(DirectPrice, page.parseJson(scripts[k]).value, r.value) &&
              forall j :: 0 <= j < k ==> Silent(page.parseJson, DirectPrice, scripts[j])))
      && (r.None? <==> forall k :: 0 <= k < |scripts| ==> Silent(page.parseJson, DirectPrice, scripts[k]))
  {
    var scripts := page.css(LdJsonQuery);
    var f := ScriptValueOf(page.parseJson, PriceWalk);
    forall k | 0 <= k < |scripts|
      ensures f(scripts[k]).None? <==> Silent(page.parseJson, DirectPrice, scripts[k])
      ensures f(scripts[k]).Some? ==> (Strip(f(scripts[k]).value) != [] &&
        StatedIn(DirectPrice, page.parseJson(scripts[k]).value, f(scripts[k]).value))
    {
      StripBlank(scripts[k]);
      if page.parseJson(scripts[k]).Some? {
        PriceWalkSpec(page.parseJson(scripts[k]).value);
      }
    }
  }

  /** The JSON-LD currency is the currency declared in the first script block
      that is not silent; there is none exactly when every block is. */
  lemma JsonLdCurrencySpec(page: Page)
    ensures var scripts := page.css(LdJsonQuery);
      var r := JsonLdCurrency(page);
      && (r.Some? ==> (r.value != [] &&
            exists k :: 0 <= k < |scripts| && page.parseJson(scripts[k]).Some? &&
              StatedIn(DeclaredCurrency, page.parseJson(scripts[k]).value, r.value) &&
              forall j :: 0 <= j < k ==> Silent(page.parseJson, DeclaredCurrency, scripts[j])))
      && (r.None? <==> forall k :: 0 <= k < |scripts| ==> Silent(page.parseJson, DeclaredCurrency, scripts[k]))
  {
    var scripts := page.css(LdJsonQuery);
    var f := ScriptValueOf(page.parseJson, CurrencyWalk);
    forall k | 0 <= k < |scripts|
      ensures f(scripts[k]).None? <==> Silent(page.parseJson, DeclaredCurrency, scripts[k])
      ensures f(scripts[k]).Some? ==> (f(scripts[k]).value != [] &&
        StatedIn(DeclaredCurrency, page.parseJson(scripts[k]).value, f(scripts[k]).value))
    {
      StripBlank(scripts[k]);
      if page.parseJson(scripts[k]).Some? {
        CurrencyWalkSpec(page.parseJson(scripts[k]).value);
      }
    }
  }
}
