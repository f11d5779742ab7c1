/** The price normaliser (`_normalize_price`) and the plausibility test
    (`_is_reasonable_price`). */
module PriceNormalizer {
  import opened Wrappers
  import opened Text
  import opened Decimals

  /** The characters `[\d.,\s]` that extend a numeric run. */
  predicate IsRunChar(c: char) { IsDigit(c) || c == '.' || c == ',' || IsSpace(c) }

  /** The pattern `[-+]?\d[\d.,\s]*` can start a match at `i`. */
  predicate MatchStartsAt(s: string, i: nat)
    requires i < |s|
  {
    IsDigit(s[i]) || (IsSign(s[i]) && i + 1 < |s| && IsDigit(s[i + 1]))
  }

  /** The first position at or after `from` where a match can start. */
  function FirstMatchStart(s: string, from: nat): (r: Option<nat>)
    requires from <= |s|
    ensures r.Some? ==> from <= r.value < |s|
    decreases |s| - from
  {
    if from == |s| then None
    else if MatchStartsAt(s, from) then Some(from)
    else FirstMatchStart(s, from + 1)
  }

  /** FirstMatchStart finds a match start, none before it, and nothing only
      when there is none. */
  lemma {:induction false} FirstMatchStartSpec(s: string, from: nat)
    requires from <= |s|
    ensures var r := FirstMatchStart(s, from);
      && (r.Some? ==> MatchStartsAt(s, r.value) && forall k :: from <= k < r.value ==> !MatchStartsAt(s, k))
      && (r.None? ==> forall k :: from <= k < |s| ==> !MatchStartsAt(s, k))
    decreases |s| - from
  {
    if from < |s| && !MatchStartsAt(s, from) {
      FirstMatchStartSpec(s, from + 1);
    }
  }

  /** Where the greedy `[\d.,\s]*` starting at `j` stops. */
  function RunEnd(s: string, j: nat): (e: nat)
    requires j <= |s|
    ensures j <= e <= |s|
    decreases |s| - j
  {
    if j < |s| && IsRunChar(s[j]) then RunEnd(s, j + 1) else j
  }

  /** The run consists of run characters and cannot be extended. */
  lemma {:induction false} RunEndSpec(s: string, j: nat)
    requires j <= |s|
    ensures var e := RunEnd(s, j);
      (forall k :: j <= k < e ==> IsRunChar(s[k])) && (e == |s| || !IsRunChar(s[e]))
    decreases |s| - j
  {
    if j < |s| && IsRunChar(s[j]) {
      RunEndSpec(s, j + 1);
    }
  }

  /** The half-open index range `[start, end)` of a regular-expression match. */
  datatype Span = Span(start: nat, end: nat)

  /** `re.search(r"[-+]?\d[\d.,\s]*", s)`: the leftmost position where a match
      can start, and from there as many run characters as follow. */
  function NumericSpan(s: string): (r: Option<Span>)
    ensures r.Some? ==> r.value.start < r.value.end <= |s|
  {
    match FirstMatchStart(s, 0)
    case None => None
    case Some(i) => Some(Span(i, RunEnd(s, i + 1)))
  }

  /** What `re.search` promises: no match exactly when no position can start
      one; otherwise the match starts at the leftmost such position, holds
      only run characters and cannot be extended. */
  lemma NumericSpanSpec(s: string)
    ensures NumericSpan(s).None? <==> forall k :: 0 <= k < |s| ==> !MatchStartsAt(s, k)
    ensures NumericSpan(s).Some? ==>
      var sp := NumericSpan(s).value;
      && MatchStartsAt(s, sp.start)
      && (forall k :: 0 <= k < sp.start ==> !MatchStartsAt(s, k))
      && (forall k :: sp.start < k < sp.end ==> IsRunChar(s[k]))
      && (sp.end == |s| || !IsRunChar(s[sp.end]))
  {
    FirstMatchStartSpec(s, 0);
    if NumericSpan(s).Some? {
      RunEndSpec(s, NumericSpan(s).value.start + 1);
    }
  }

  /** `match.group(0).strip().replace(" ", "")`: only the space character is
      removed from inside the number. */
  function Compact(m: string): string {
    RemoveAll(Strip(m), ' ')
  }

  /** Lines 38-47: with both `,` and `.` present the rightmost one is the
      decimal separator and the other is deleted; a single `,` without `.` is a
      decimal separator; otherwise every `,` is deleted. */
  function Disambiguate(v: string): (r: string)
    ensures ',' !in r
  {
    if ',' in v && '.' in v then
      if RFind(v, ',') > RFind(v, '.') then ReplaceChar(RemoveAll(v, '.'), ',', '.')
      else RemoveAll(v, ',')
    else if CountOf(v, ',') == 1 && CountOf(v, '.') == 0 then ReplaceChar(v, ',', '.')
    else RemoveAll(v, ',')
  }

  /** The four branches of Disambiguate, each under the condition that selects it. */
  lemma DisambiguateCommaLast(v: string)
    requires ',' in v && '.' in v && RFind(v, ',') > RFind(v, '.')
    ensures Disambiguate(v) == ReplaceChar(RemoveAll(v, '.'), ',', '.')
  {
  }

  lemma DisambiguatePointLast(v: string)
    requires ',' in v && '.' in v && RFind(v, ',') < RFind(v, '.')
    ensures Disambiguate(v) == RemoveAll(v, ',')
  {
  }

  lemma DisambiguateLoneComma(v: string)
    requires CountOf(v, ',') == 1 && '.' !in v
    ensures Disambiguate(v) == ReplaceChar(v, ',', '.')
  {
  }

  lemma DisambiguateNoComma(v: string)
    requires ',' !in v
    ensures Disambiguate(v) == v
  {
    RemoveAllAbsent(v, ',');
  }

  lemma DisambiguateManyCommas(v: string)
    requires CountOf(v, ',') >= 2 && '.' !in v
    ensures Disambiguate(v) == RemoveAll(v, ',')
  {
  }

  /** `match.group(0)`: the text of the first numeric run, if there is one. */
  function MatchedText(raw: string): Option<string> {
    match NumericSpan(raw)
    case None => None
    case Some(sp) => Some(raw[sp.start..sp.end])
  }

  /** The text `_normalize_price` hands to `Decimal()`: the first numeric run of
      `raw`, compacted, with its separators disambiguated. */
  function Normalized(raw: string): Option<string> {
    match MatchedText(raw)
    case None => None
    case Some(m) => Some(Disambiguate(Compact(m)))
  }

  /** `_normalize_price`: the exact decimal of the first numeric run of `raw`,
      or `None` when there is no run or its normalised text is no decimal. */
  function NormalizePrice(raw: string): Option<Decimal> {
    match Normalized(raw)
    case None => None
    case Some(v) => ParseDecimal(v)
  }

  /** `_is_reasonable_price`: a value strictly between 0 and 10,000,000. */
  function IsReasonablePrice(price: Option<Decimal>): (r: bool)
    ensures r <==> price.Some? && 0.0 < ValueOf(price.value) < 10000000.0
  {
    if price.None? then false
    else
      var d := price.value;
      RealBounds(d.mantissa, Pow10(d.scale), 10000000);
      0 < d.mantissa < 10000000 * Pow10(d.scale)
  }

  lemma RealBounds(m: int, p: nat, bound: nat)
    requires p >= 1
    ensures 0.0 < m as real / p as real <==> 0 < m
    ensures m as real / p as real < bound as real <==> m < bound * p
  {
    var q := m as real / p as real;
    assert q * p as real == m as real;
    assert (bound * p) as real == bound as real * p as real;
    if q < bound as real {
      assert q * p as real < bound as real * p as real;
    }
    if m < bound * p {
      assert q * p as real < bound as real * p as real;
    }
  }

  // ---------------------------------------------------------------------
  // Properties of the normaliser

  /** Text without a digit has no price. */
  lemma NoDigitNoPrice(s: string)
    requires forall k :: 0 <= k < |s| ==> !IsDigit(s[k])
    ensures NormalizePrice(s) == None
  {
    assert forall k :: 0 <= k < |s| ==> !MatchStartsAt(s, k);
    NumericSpanSpec(s);
  }

  /** The search for a match start stops at the first position that can start one. */
  lemma {:induction false} FirstMatchAt(s: string, from: nat, i: nat)
    requires from <= i < |s| && MatchStartsAt(s, i)
    requires forall k :: from <= k < i ==> !MatchStartsAt(s, k)
    ensures FirstMatchStart(s, from) == Some(i)
    decreases i - from
  {
    if from < i {
      FirstMatchAt(s, from + 1, i);
    }
  }

  /** The greedy run stops at the first character that cannot extend it. */
  lemma {:induction false} RunEndAt(s: string, j: nat, e: nat)
    requires j <= e <= |s|
    requires forall k :: j <= k < e ==> IsRunChar(s[k])
    requires e == |s| || !IsRunChar(s[e])
    ensures RunEnd(s, j) == e
    decreases e - j
  {
    if j < e {
      RunEndAt(s, j + 1, e);
    }
  }

  /** The converse of NumericSpan's postcondition: a leftmost, maximal run is
      the match. */
  lemma SpanAt(s: string, i: nat, e: nat)
    requires i < e <= |s| && MatchStartsAt(s, i)
    requires forall k :: 0 <= k < i ==> !MatchStartsAt(s, k)
    requires forall k :: i < k < e ==> IsRunChar(s[k])
    requires e == |s| || !IsRunChar(s[e])
    ensures NumericSpan(s) == Some(Span(i, e))
  {
    FirstMatchAt(s, 0, i);
    RunEndAt(s, i + 1, e);
  }

  /** When the whole text is one numeric run, the match is all of it. */
  lemma WholeMatch(s: string)
    requires s != [] && MatchStartsAt(s, 0)
    requires forall k :: 1 <= k < |s| ==> IsRunChar(s[k])
    ensures MatchedText(s) == Some(s)
  {
    SpanAt(s, 0, |s|);
    assert s[0..|s|] == s;
  }

  /** When the whole text is one numeric run, the result is the normalisation of
      all of it. */
  lemma WholeRun(s: string)
    requires s != [] && MatchStartsAt(s, 0) && IsStripped(s)
    requires forall k :: 1 <= k < |s| ==> IsRunChar(s[k])
    ensures Normalized(s) == Some(Disambiguate(RemoveAll(s, ' ')))
  {
    WholeMatch(s);
    StripStripped(s);
  }

  /** Whatever follows the first numeric run, once a character ends that run,
      does not change the result: only the first run is read. */
  lemma FirstRunOnly(s: string, c: char, t: string)
    requires NumericSpan(s).Some? && !IsRunChar(c)
    ensures Normalized(s + [c] + t) == Normalized(s)
    ensures NormalizePrice(s + [c] + t) == NormalizePrice(s)
  {
    FirstRunMatch(s, c, t);
  }

  lemma FirstRunMatch(s: string, c: char, t: string)
    requires NumericSpan(s).Some? && !IsRunChar(c)
    ensures MatchedText(s + [c] + t) == MatchedText(s)
  {
    var u := s + [c] + t;
    NumericSpanSpec(s);
    var sp := NumericSpan(s).value;
    assert forall k :: 0 <= k < |s| ==> (MatchStartsAt(u, k) <==> MatchStartsAt(s, k)) by {
      forall k | 0 <= k < |s| ensures MatchStartsAt(u, k) <==> MatchStartsAt(s, k) {
        assert u[k] == s[k];
        if k + 1 < |s| { assert u[k + 1] == s[k + 1]; } else { assert u[k + 1] == c; }
      }
    }
    assert forall k :: sp.start < k < sp.end ==> u[k] == s[k];
    assert u[sp.end] == if sp.end < |s| then s[sp.end] else c;
    SpanAt(u, sp.start, sp.end);
    assert u[sp.start..sp.end] == s[sp.start..sp.end];
  }

  /** Text before the first numeric run that holds no digit, and does not end in
      a sign, does not change the result. */
  lemma PrefixWithoutDigits(p: string, s: string)
    requires forall k :: 0 <= k < |p| ==> !IsDigit(p[k])
    requires p == [] || !IsSign(p[|p| - 1])
    ensures Normalized(p + s) == Normalized(s)
    ensures NormalizePrice(p + s) == NormalizePrice(s)
  {
    PrefixMatch(p, s);
  }

  lemma PrefixMatch(p: string, s: string)
    requires forall k :: 0 <= k < |p| ==> !IsDigit(p[k])
    requires p == [] || !IsSign(p[|p| - 1])
    ensures MatchedText(p + s) == MatchedText(s)
  {
    PrefixSpan(p, s);
    if NumericSpan(s).Some? {
      var sp := NumericSpan(s).value;
      var u := p + s;
      assert u[|p| + sp.start..|p| + sp.end] == s[sp.start..sp.end] by {
        assert u[|p|..] == s;
        assert u[|p| + sp.start..|p| + sp.end] == u[|p|..][sp.start..sp.end];
      }
    }
  }

  /** The numeric run of `p + s` is the run of `s`, shifted by `|p|`. */
  lemma PrefixSpan(p: string, s: string)
    requires forall k :: 0 <= k < |p| ==> !IsDigit(p[k])
    requires p == [] || !IsSign(p[|p| - 1])
    ensures NumericSpan(p + s) ==
      match NumericSpan(s)
      case None => None
      case Some(sp) => Some(Span(|p| + sp.start, |p| + sp.end))
  {
    PrefixStarts(p, s);
    NumericSpanSpec(s);
    if NumericSpan(s).None? {
      PrefixNoSpan(p, s);
    } else {
      PrefixShiftedSpan(p, s, NumericSpan(s).value);
    }
  }

  lemma PrefixNoSpan(p: string, s: string)
    requires forall k :: 0 <= k < |p| ==> !MatchStartsAt(p + s, k)
    requires forall k :: 0 <= k < |s| ==> (MatchStartsAt(p + s, |p| + k) <==> MatchStartsAt(s, k))
    requires forall k :: 0 <= k < |s| ==> !MatchStartsAt(s, k)
    ensures NumericSpan(p + s) == None
  {
    var u := p + s;
    forall k | 0 <= k < |u| ensures !MatchStartsAt(u, k) {
      if k >= |p| { assert !MatchStartsAt(s, k - |p|); }
    }
    NumericSpanSpec(u);
  }

  lemma PrefixShiftedSpan(p: string, s: string, sp: Span)
    requires forall k :: 0 <= k < |p| ==> !MatchStartsAt(p + s, k)
    requires forall k :: 0 <= k < |s| ==> (MatchStartsAt(p + s, |p| + k) <==> MatchStartsAt(s, k))
    requires sp.start < sp.end <= |s| && MatchStartsAt(s, sp.start)
    requires forall k :: 0 <= k < sp.start ==> !MatchStartsAt(s, k)
    requires forall k :: sp.start < k < sp.end ==> IsRunChar(s[k])
    requires sp.end == |s| || !IsRunChar(s[sp.end])
    ensures NumericSpan(p + s) == Some(Span(|p| + sp.start, |p| + sp.end))
  {
    var u := p + s;
    forall k | 0 <= k < |p| + sp.start ensures !MatchStartsAt(u, k) {
      if k >= |p| { assert !MatchStartsAt(s, k - |p|); }
    }
    forall k | |p| + sp.start < k < |p| + sp.end ensures IsRunChar(u[k]) {
      assert u[k] == s[k - |p|];
    }
    if sp.end < |s| {
      assert u[|p| + sp.end] == s[sp.end];
    }
    assert MatchStartsAt(u, |p| + sp.start);
    SpanAt(u, |p| + sp.start, |p| + sp.end);
  }

  /** No match starts inside the prefix, and a match starts at `|p| + k` of the
      whole exactly when one starts at `k` of `s`. */
  lemma PrefixStarts(p: string, s: string)
    requires forall k :: 0 <= k < |p| ==> !IsDigit(p[k])
    requires p == [] || !IsSign(p[|p| - 1])
    ensures forall k :: 0 <= k < |p| ==> !MatchStartsAt(p + s, k)
    ensures forall k :: 0 <= k < |s| ==> (MatchStartsAt(p + s, |p| + k) <==> MatchStartsAt(s, k))
  {
    var u := p + s;
    forall k | 0 <= k < |p| ensures !MatchStartsAt(u, k) {
      assert u[k] == p[k];
      if k + 1 < |p| { assert u[k + 1] == p[k + 1]; }
    }
    forall k | 0 <= k < |s| ensures MatchStartsAt(u, |p| + k) <==> MatchStartsAt(s, k) {
      assert u[|p| + k] == s[k];
      if k + 1 < |s| { assert u[|p| + k + 1] == s[k + 1]; }
    }
  }

  /** A run that holds neither a space nor a comma is handed to `Decimal()`
      unchanged. */
  lemma PlainRun(s: string)
    requires s != [] && MatchStartsAt(s, 0) && IsStripped(s)
    requires forall k :: 1 <= k < |s| ==> IsRunChar(s[k])
    requires ' ' !in s && ',' !in s
    ensures Normalized(s) == Some(s)
  {
    WholeRun(s);
    RemoveAllAbsent(s, ' ');
    RemoveAllAbsent(s, ',');
  }

  /** The canonical text of every decimal normalises back to that decimal. */
  lemma NormalizeFormatRoundTrip(d: Decimal)
    ensures NormalizePrice(FormatDecimal(d)) == Some(d)
  {
    FormatNormalizedText(d);
    FormatParseRoundTrip(d);
  }

  lemma FormatNormalizedText(d: Decimal)
    ensures Normalized(FormatDecimal(d)) == Some(FormatDecimal(d))
  {
    var negative := d.mantissa < 0;
    var m: nat := if negative then -d.mantissa else d.mantissa;
    var t := UnsignedText(m, d.scale);
    UnsignedTextChars(m, d.scale);
    SignedPlainRun(t, negative, FormatDecimal(d));
  }

  /** A literal of digits and points, with or without a minus sign, is a
      numeric run that is handed to `Decimal()` unchanged. */
  lemma SignedPlainRun(t: string, negative: bool, s: string)
    requires t != [] && IsDigit(t[0]) && IsStripped(t)
    requires forall k :: 0 <= k < |t| ==> IsDigit(t[k]) || t[k] == '.'
    requires s == if negative then "-" + t else t
    ensures Normalized(s) == Some(s)
  {
    assert forall k :: 0 <= k < |s| ==> IsDigit(s[k]) || s[k] == '.' || (k == 0 && s[k] == '-');
    assert MatchStartsAt(s, 0) && IsStripped(s) by {
      if negative { assert s[1] == t[0]; }
    }
    OnlyDigitsAnd(s, '.', '-', ' ');
    OnlyDigitsAnd(s, '.', '-', ',');
    PlainRun(s);
  }

  // ---------------------------------------------------------------------
  // Separator conventions

  /** Digit groups preceded by a separator each: `Join('.', ["234", "567"])`
      is `".234.567"`. */
  function Join(sep: char, gs: seq<string>): string {
    if gs == [] then [] else [sep] + gs[0] + Join(sep, gs[1..])
  }

  predicate AllDigits(gs: seq<string>) { forall i :: 0 <= i < |gs| ==> IsDigits(gs[i]) }

  /** The groups written one after another. */
  function Concat(gs: seq<string>): (r: string)
    ensures AllDigits(gs) ==> IsDigits(r)
  {
    if gs == [] then [] else gs[0] + Concat(gs[1..])
  }

  lemma JoinFacts(sep: char, gs: seq<string>)
    requires AllDigits(gs) && !IsDigit(sep)
    ensures var j := Join(sep, gs);
      && (forall k :: 0 <= k < |j| ==> IsDigit(j[k]) || j[k] == sep)
      && RemoveAll(j, sep) == Concat(gs)
      && (gs != [] ==> j[0] == sep)
  {
    JoinChars(sep, gs);
    JoinRemove(sep, gs);
  }

  /** A join holds digits and separators only. */
  lemma {:induction false} JoinChars(sep: char, gs: seq<string>)
    requires AllDigits(gs)
    ensures var j := Join(sep, gs);
      (forall k :: 0 <= k < |j| ==> IsDigit(j[k]) || j[k] == sep) && (gs != [] ==> j[0] == sep)
  {
    if gs != [] {
      JoinChars(sep, gs[1..]);
      var rest := Join(sep, gs[1..]);
      var j := [sep] + gs[0] + rest;
      assert Join(sep, gs) == j;
      forall k | 0 <= k < |j| ensures IsDigit(j[k]) || j[k] == sep {
        if 0 < k <= |gs[0]| {
          assert j[k] == gs[0][k - 1];
        } else if k > |gs[0]| {
          assert j[k] == rest[k - 1 - |gs[0]|];
        }
      }
    }
  }

  /** Removing the separators from a join gives the groups written together. */
  lemma {:induction false} JoinRemove(sep: char, gs: seq<string>)
    requires AllDigits(gs) && !IsDigit(sep)
    ensures RemoveAll(Join(sep, gs), sep) == Concat(gs)
  {
    if gs != [] {
      JoinRemove(sep, gs[1..]);
      var rest := Join(sep, gs[1..]);
      assert Join(sep, gs) == [sep] + gs[0] + rest;
      assert RemoveAll([sep], sep) == [] by {
        assert [sep][1..] == [];
      }
      assert sep !in gs[0];
      RemoveAllAbsent(gs[0], sep);
      RemoveAllAppend([sep], gs[0], sep);
      RemoveAllAppend([sep] + gs[0], rest, sep);
      assert [] + gs[0] == gs[0];
    }
  }

  /** A text made of digits and the characters `c` and `e` holds no other
      character. */
  lemma OnlyDigitsAnd(s: string, c: char, e: char, d: char)
    requires forall k :: 0 <= k < |s| ==> IsDigit(s[k]) || s[k] == c || s[k] == e
    requires !IsDigit(d) && d != c && d != e
    ensures d !in s && RemoveAll(s, d) == s
  {
    RemoveAllAbsent(s, d);
  }

  /** The characters of `a` + groups separated by `sep` + a final `c` + the
      digits `f`, such as `"1.234,56"`. */
  lemma GroupedChars(a: string, gs: seq<string>, sep: char, c: char, f: string)
    requires a != [] && IsDigits(a) && AllDigits(gs) && IsDigits(f)
    requires !IsDigit(sep) && !IsDigit(c) && !IsSpace(c)
    ensures var s := a + Join(sep, gs) + [c] + f;
      && (forall k :: 0 <= k < |s| ==> IsDigit(s[k]) || s[k] == sep || s[k] == c)
      && IsStripped(s) && MatchStartsAt(s, 0)
  {
    JoinFacts(sep, gs);
  }

  /** Removing the group separators leaves the digits, `c` and the fraction. */
  lemma GroupedRemove(a: string, gs: seq<string>, sep: char, c: char, f: string)
    requires IsDigits(a) && AllDigits(gs) && IsDigits(f) && !IsDigit(sep) && sep != c
    ensures RemoveAll(a + Join(sep, gs) + [c] + f, sep) == a + Concat(gs) + [c] + f
  {
    var j := Join(sep, gs);
    JoinFacts(sep, gs);
    assert sep !in a && sep !in f && sep !in [c];
    RemoveAllAbsent(a, sep);
    RemoveAllAbsent(f, sep);
    RemoveAllAbsent([c], sep);
    RemoveAllAppend(a, j, sep);
    RemoveAllAppend(a + j, [c], sep);
    RemoveAllAppend(a + j + [c], f, sep);
  }

  /** `c` occurs once, and `sep` occurs exactly when there are groups. */
  lemma GroupedCount(a: string, gs: seq<string>, sep: char, c: char, f: string)
    requires IsDigits(a) && AllDigits(gs) && IsDigits(f)
    requires !IsDigit(sep) && !IsDigit(c) && sep != c
    ensures var s := a + Join(sep, gs) + [c] + f;
      CountOf(s, c) == 1 && (sep in s <==> gs != [])
  {
    var j := Join(sep, gs);
    JoinFacts(sep, gs);
    OnlyDigitsAnd(j, sep, sep, c);
    assert CountOf([c], c) == 1 by {
      assert [c][1..] == [];
    }
    assert c !in a && c !in f;
    CountOfAppend(a, j, c);
    CountOfAppend(a + j, [c], c);
    CountOfAppend(a + j + [c], f, c);
    SeparatorPresent(a, j, sep, c, f);
  }

  /** The group separator occurs in the text exactly when the groups do. */
  lemma SeparatorPresent(a: string, j: string, sep: char, c: char, f: string)
    requires IsDigits(a) && IsDigits(f) && !IsDigit(sep) && sep != c
    requires j == [] || j[0] == sep
    ensures sep in a + j + [c] + f <==> j != []
  {
    var s := a + j + [c] + f;
    if j != [] {
      assert s[|a|] == sep;
    } else {
      assert a + j == a;
      assert sep !in a && sep !in f;
    }
  }

  /** The final `c` is the rightmost of the two separators. */
  lemma GroupedRFind(a: string, gs: seq<string>, sep: char, c: char, f: string)
    requires IsDigits(a) && AllDigits(gs) && IsDigits(f)
    requires !IsDigit(sep) && !IsDigit(c) && sep != c
    ensures var s := a + Join(sep, gs) + [c] + f;
      RFind(s, c) == |a + Join(sep, gs)| && RFind(s, sep) < |a + Join(sep, gs)|
  {
    var j := Join(sep, gs);
    assert a + j + [c] + f == (a + j) + ([c] + f);
    assert sep !in [c] + f && c in [c] + f;
    RFindAppend(a + j, [c] + f, c);
    RFindAppend(a + j, [c] + f, sep);
    assert RFind([c] + f, c) == 0;
  }

  /** Replacing the separator `c` by a point gives the plain decimal text. */
  lemma PointAt(dd: string, c: char, f: string)
    requires IsDigits(dd) && IsDigits(f) && !IsDigit(c)
    ensures ReplaceChar(dd + [c] + f, c, '.') == dd + "." + f
  {
  }

  /** A run of digits, points and commas that starts with a digit is handed to
      `Decimal()` as its disambiguation. */
  lemma SeparatedRun(s: string)
    requires s != [] && IsDigit(s[0])
    requires forall k :: 0 <= k < |s| ==> IsDigit(s[k]) || s[k] == '.' || s[k] == ','
    ensures Normalized(s) == Some(Disambiguate(s))
  {
    WholeRun(s);
    OnlyDigitsAnd(s, '.', ',', ' ');
  }

  /** With dots before a final comma, the comma becomes the point and the dots go. */
  lemma DisambiguateDotThousands(a: string, gs: seq<string>, f: string)
    requires a != [] && IsDigits(a) && AllDigits(gs) && IsDigits(f)
    ensures Disambiguate(a + Join('.', gs) + "," + f) == a + Concat(gs) + "." + f
  {
    var s := a + Join('.', gs) + "," + f;
    GroupedCount(a, gs, '.', ',', f);
    PointAt(a + Concat(gs), ',', f);
    if gs == [] {
      assert s == a + Concat(gs) + [','] + f;
      DisambiguateLoneComma(s);
    } else {
      GroupedRFind(a, gs, '.', ',', f);
      GroupedRemove(a, gs, '.', ',', f);
      DisambiguateCommaLast(s);
    }
  }

  /** With commas before a final dot, the commas go. */
  lemma DisambiguateCommaThousands(a: string, gs: seq<string>, f: string)
    requires a != [] && IsDigits(a) && AllDigits(gs) && IsDigits(f)
    ensures Disambiguate(a + Join(',', gs) + "." + f) == a + Concat(gs) + "." + f
  {
    var s := a + Join(',', gs) + "." + f;
    GroupedCount(a, gs, ',', '.', f);
    if gs == [] {
      assert s == a + Concat(gs) + "." + f;
      DisambiguateNoComma(s);
    } else {
      GroupedRFind(a, gs, ',', '.', f);
      GroupedRemove(a, gs, ',', '.', f);
      DisambiguatePointLast(s);
    }
  }

  /** `"1.234,56"`: dots group the thousands, the final comma is the decimal
      separator. */
  lemma DotThousandsCommaDecimalText(a: string, gs: seq<string>, f: string)
    requires a != [] && IsDigits(a) && AllDigits(gs) && IsDigits(f)
    ensures Normalized(a + Join('.', gs) + "," + f) == Some(a + Concat(gs) + "." + f)
  {
    GroupedChars(a, gs, '.', ',', f);
    SeparatedRun(a + Join('.', gs) + "," + f);
    DisambiguateDotThousands(a, gs, f);
  }

  /** `"1,234.56"`: commas group the thousands, the final dot is the decimal
      separator. */
  lemma CommaThousandsDotDecimalText(a: string, gs: seq<string>, f: string)
    requires a != [] && IsDigits(a) && AllDigits(gs) && IsDigits(f)
    ensures Normalized(a + Join(',', gs) + "." + f) == Some(a + Concat(gs) + "." + f)
  {
    GroupedChars(a, gs, ',', '.', f);
    SeparatedRun(a + Join(',', gs) + "." + f);
    DisambiguateCommaThousands(a, gs, f);
  }

  /** `"1 234,56"`: spaces group the thousands and are removed, the comma is the
      decimal separator. */
  lemma SpaceThousandsCommaDecimalText(a: string, gs: seq<string>, f: string)
    requires a != [] && IsDigits(a) && AllDigits(gs) && IsDigits(f)
    ensures Normalized(a + Join(' ', gs) + "," + f) == Some(a + Concat(gs) + "." + f)
  {
    var s := a + Join(' ', gs) + "," + f;
    var g := a + Concat(gs);
    assert RemoveAll(s, ' ') == g + "," + f by {
      GroupedRemove(a, gs, ' ', ',', f);
    }
    assert IsStripped(s) && MatchStartsAt(s, 0) && forall k :: 0 <= k < |s| ==> IsRunChar(s[k]) by {
      GroupedChars(a, gs, ' ', ',', f);
    }
    WholeRun(s);
    assert Disambiguate(g + "," + f) == g + "." + f by {
      LoneComma(g, f);
    }
  }

  /** A single comma and no point: the comma is the decimal separator. */
  lemma LoneComma(g: string, f: string)
    requires IsDigits(g) && IsDigits(f)
    ensures Disambiguate(g + "," + f) == g + "." + f
  {
    var s := g + "," + f;
    assert CountOf(s, ',') == 1 && '.' !in s by {
      assert s == g + ([','] + f);
      CountOfAppend(g, [','] + f, ',');
      CountOfAppend([','], f, ',');
      assert ',' !in g && ',' !in f;
    }
    DisambiguateLoneComma(s);
    PointAt(g, ',', f);
  }

  /** `"1,234,567"`: two or more commas and no dot are all thousands separators. */
  lemma CommaThousandsIntegerText(a: string, gs: seq<string>)
    requires a != [] && IsDigits(a) && AllDigits(gs) && |gs| >= 2
    ensures Normalized(a + Join(',', gs)) == Some(a + Concat(gs))
  {
    var j := Join(',', gs);
    var s := a + j;
    JoinFacts(',', gs);
    assert forall k :: 0 <= k < |s| ==> IsDigit(s[k]) || s[k] == ',';
    SeparatedRun(s);
    DisambiguateCommas(a, gs);
  }

  /** Commas alone, more than one of them, are all deleted. */
  lemma DisambiguateCommas(a: string, gs: seq<string>)
    requires a != [] && IsDigits(a) && AllDigits(gs) && |gs| >= 2
    ensures Disambiguate(a + Join(',', gs)) == a + Concat(gs)
  {
    CommaGroups(a, gs);
    DisambiguateManyCommas(a + Join(',', gs));
  }

  /** Integer digits with comma groups: no point, at least two commas, and only
      the digits once the commas are removed. */
  lemma CommaGroups(a: string, gs: seq<string>)
    requires IsDigits(a) && AllDigits(gs) && |gs| >= 2
    ensures var s := a + Join(',', gs);
      '.' !in s && CountOf(s, ',') >= 2 && RemoveAll(s, ',') == a + Concat(gs)
  {
    var j := Join(',', gs);
    JoinFacts(',', gs);
    assert '.' !in a + j by {
      OnlyDigitsAnd(j, ',', ',', '.');
    }
    assert RemoveAll(a + j, ',') == a + Concat(gs) by {
      RemoveAllAbsent(a, ',');
      RemoveAllAppend(a, j, ',');
    }
    assert CountOf(a + j, ',') >= 2 by {
      CountOfAppend(a, j, ',');
      TwoGroupsTwoSeparators(',', gs);
    }
  }

  lemma TwoGroupsTwoSeparators(sep: char, gs: seq<string>)
    requires |gs| >= 2 && AllDigits(gs) && !IsDigit(sep)
    ensures CountOf(Join(sep, gs), sep) >= 2
  {
    var rest := Join(sep, gs[1..]);
    JoinFacts(sep, gs[1..]);
    assert Join(sep, gs) == [sep] + (gs[0] + rest);
    CountOfAppend([sep], gs[0] + rest, sep);
    CountOfAppend(gs[0], rest, sep);
    assert rest[0] == sep;
  }

  /** A normalised text of the form digits-point-digits is that decimal. */
  lemma PointedValue(s: string, dd: string, f: string)
    requires dd != [] && IsDigits(dd) && IsDigits(f)
    requires Normalized(s) == Some(dd + "." + f)
    ensures NormalizePrice(s) == Some(Decimal(DigitsValue(dd + f), |f|))
  {
    ParsePointed(dd, f);
  }

  /** `"1.234,56"` and its like give the digits with the fraction's length as scale. */
  lemma DotThousandsCommaDecimal(a: string, gs: seq<string>, f: string)
    requires a != [] && IsDigits(a) && AllDigits(gs) && IsDigits(f)
    ensures NormalizePrice(a + Join('.', gs) + "," + f) == Some(Decimal(DigitsValue(a + Concat(gs) + f), |f|))
  {
    DotThousandsCommaDecimalText(a, gs, f);
    PointedValue(a + Join('.', gs) + "," + f, a + Concat(gs), f);
  }

  /** `"1,234.56"` and its like. */
  lemma CommaThousandsDotDecimal(a: string, gs: seq<string>, f: string)
    requires a != [] && IsDigits(a) && AllDigits(gs) && IsDigits(f)
    ensures NormalizePrice(a + Join(',', gs) + "." + f) == Some(Decimal(DigitsValue(a + Concat(gs) + f), |f|))
  {
    CommaThousandsDotDecimalText(a, gs, f);
    PointedValue(a + Join(',', gs) + "." + f, a + Concat(gs), f);
  }

  /** `"1 234,56"` and its like. */
  lemma SpaceThousandsCommaDecimal(a: string, gs: seq<string>, f: string)
    requires a != [] && IsDigits(a) && AllDigits(gs) && IsDigits(f)
    ensures NormalizePrice(a + Join(' ', gs) + "," + f) == Some(Decimal(DigitsValue(a + Concat(gs) + f), |f|))
  {
    SpaceThousandsCommaDecimalText(a, gs, f);
    PointedValue(a + Join(' ', gs) + "," + f, a + Concat(gs), f);
  }

  /** `"1234.56"`: a lone dot is the decimal separator. */
  lemma PlainDotDecimal(a: string, f: string)
    requires a != [] && IsDigits(a) && IsDigits(f)
    ensures NormalizePrice(a + "." + f) == Some(Decimal(DigitsValue(a + f), |f|))
  {
    PlainDotText(a, f);
    PointedValue(a + "." + f, a, f);
  }

  lemma PlainDotText(a: string, f: string)
    requires a != [] && IsDigits(a) && IsDigits(f)
    ensures Normalized(a + "." + f) == Some(a + "." + f)
  {
    var s := a + "." + f;
    DigitsAround(a, '.', f);
    RunOf(s, '.', '.');
    OnlyDigitsAnd(s, '.', '.', ' ');
    OnlyDigitsAnd(s, '.', '.', ',');
    PlainRun(s);
  }

  /** `"1234,56"`, and equally `"1,234"`: a lone comma is the decimal
      separator, whatever the number of digits after it. */
  lemma PlainCommaDecimal(a: string, f: string)
    requires a != [] && IsDigits(a) && IsDigits(f)
    ensures NormalizePrice(a + "," + f) == Some(Decimal(DigitsValue(a + f), |f|))
  {
    PlainCommaText(a, f);
    PointedValue(a + "," + f, a, f);
  }

  lemma PlainCommaText(a: string, f: string)
    requires a != [] && IsDigits(a) && IsDigits(f)
    ensures Normalized(a + "," + f) == Some(a + "." + f)
  {
    var s := a + "," + f;
    DigitsAround(a, ',', f);
    RunOf(s, ',', ',');
    OnlyDigitsAnd(s, ',', ',', ' ');
    WholeRun(s);
    LoneComma(a, f);
  }

  /** `"1,234,567"` gives the integer of all its digits. */
  lemma CommaThousandsInteger(a: string, gs: seq<string>)
    requires a != [] && IsDigits(a) && AllDigits(gs) && |gs| >= 2
    ensures NormalizePrice(a + Join(',', gs)) == Some(Decimal(DigitsValue(a + Concat(gs)), 0))
  {
    CommaThousandsIntegerText(a, gs);
    ParseDigits(a + Concat(gs));
  }

  /** `Decimal()` rejects a text with two decimal points. */
  lemma TwoPointsRejected(v: string, i: nat, j: nat)
    requires IsStripped(v) && v != [] && IsDigit(v[0])
    requires i < j < |v| && v[i] == '.' && v[j] == '.'
    ensures ParseDecimal(v) == None
  {
    ParseUnsignedStart(v);
    UnsignedTwoPoints(v, i, j);
  }

  lemma UnsignedTwoPoints(v: string, i: nat, j: nat)
    requires i < j < |v| && v[i] == '.' && v[j] == '.'
    ensures ParseUnsigned(v) == None
  {
    var dot := IndexOf(v, '.');
    IndexFromFirst(v, '.', 0);
    assert dot <= i;
    assert v[dot + 1..][j - dot - 1] == '.';
  }

  /** `Decimal()` rejects a text of digits with a non-digit and no point. */
  lemma StrayCharRejected(v: string, i: nat)
    requires IsStripped(v) && v != [] && IsDigit(v[0]) && '.' !in v
    requires i < |v| && !IsDigit(v[i])
    ensures ParseDecimal(v) == None
  {
    ParseUnsignedStart(v);
    UnsignedStrayChar(v, i);
  }

  lemma UnsignedStrayChar(v: string, i: nat)
    requires '.' !in v && i < |v| && !IsDigit(v[i])
    ensures ParseUnsigned(v) == None
  {
    IndexOfAt(v, '.', |v|);
    assert v[..|v|][i] == v[i];
  }

  /** `"1.234.567"` (and `"1.2.3"`): more than one decimal point, so no price. */
  lemma DotThousandsIntegerRejected(a: string, gs: seq<string>)
    requires a != [] && IsDigits(a) && AllDigits(gs) && |gs| >= 2
    ensures NormalizePrice(a + Join('.', gs)) == None
  {
    var s := a + Join('.', gs);
    DotGroups(a, gs);
    PlainRun(s);
    TwoPointsRejected(s, |a|, |a| + 1 + |gs[0]|);
  }

  /** The anatomy of digits with at least two point-separated groups. */
  lemma DotGroups(a: string, gs: seq<string>)
    requires a != [] && IsDigits(a) && AllDigits(gs) && |gs| >= 2
    ensures var s := a + Join('.', gs);
      && (forall k :: 0 <= k < |s| ==> IsDigit(s[k]) || s[k] == '.')
      && ',' !in s && ' ' !in s && IsStripped(s) && MatchStartsAt(s, 0)
      && |a| + 1 + |gs[0]| < |s| && s[|a|] == '.' && s[|a| + 1 + |gs[0]|] == '.'
  {
    var s := a + Join('.', gs);
    JoinFacts('.', gs);
    JoinFacts('.', gs[1..]);
    assert forall k :: 0 <= k < |s| ==> IsDigit(s[k]) || s[k] == '.';
    assert Join('.', gs) == ['.'] + gs[0] + Join('.', gs[1..]);
  }

  /** Whitespace other than the space character inside a number is not removed,
      so the text is no decimal; a space is removed. */
  lemma InnerWhitespace(a: string, w: char, b: string)
    requires a != [] && IsDigits(a) && b != [] && IsDigits(b) && IsSpace(w)
    ensures NormalizePrice(a + [w] + b) == if w == ' ' then Some(Decimal(DigitsValue(a + b), 0)) else None
  {
    if w == ' ' {
      InnerSpace(a, b);
    } else {
      InnerWhitespaceRejected(a, w, b);
    }
  }

  lemma InnerSpace(a: string, b: string)
    requires a != [] && IsDigits(a) && b != [] && IsDigits(b)
    ensures NormalizePrice(a + [' '] + b) == Some(Decimal(DigitsValue(a + b), 0))
  {
    InnerSpaceText(a, b);
    ParseDigits(a + b);
  }

  lemma InnerWhitespaceRejected(a: string, w: char, b: string)
    requires a != [] && IsDigits(a) && b != [] && IsDigits(b) && IsSpace(w) && w != ' '
    ensures NormalizePrice(a + [w] + b) == None
  {
    var s := a + [w] + b;
    InnerWhitespaceText(a, w, b);
    DigitsAround(a, w, b);
    OnlyDigitsAnd(s, w, w, '.');
    StrayCharRejected(s, |a|);
  }

  lemma InnerSpaceText(a: string, b: string)
    requires a != [] && IsDigits(a) && b != [] && IsDigits(b)
    ensures Normalized(a + [' '] + b) == Some(a + b)
  {
    var s := a + [' '] + b;
    DigitsAround(a, ' ', b);
    RunOf(s, ' ', ' ');
    RemoveAround(a, ' ', b);
    WholeRun(s);
    DisambiguateNoComma(a + b);
  }

  lemma InnerWhitespaceText(a: string, w: char, b: string)
    requires a != [] && IsDigits(a) && b != [] && IsDigits(b) && IsSpace(w) && w != ' '
    ensures Normalized(a + [w] + b) == Some(a + [w] + b)
  {
    var s := a + [w] + b;
    DigitsAround(a, w, b);
    RunOf(s, w, w);
    OnlyDigitsAnd(s, w, w, ' ');
    OnlyDigitsAnd(s, w, w, ',');
    PlainRun(s);
  }

  /** Two digit strings around one other character, the second one empty
      only when that character is not whitespace. */
  lemma DigitsAround(a: string, w: char, b: string)
    requires a != [] && IsDigits(a) && IsDigits(b) && !IsDigit(w) && (b != [] || !IsSpace(w))
    ensures var s := a + [w] + b;
      && IsStripped(s) && MatchStartsAt(s, 0)
      && forall k :: 0 <= k < |s| ==> IsDigit(s[k]) || s[k] == w
  {
    var s := a + [w] + b;
    assert s[0] == a[0] && s[|s| - 1] == if b == [] then w else b[|b| - 1];
  }

  /** Removing the one character between two digit strings joins them. */
  lemma RemoveAround(a: string, w: char, b: string)
    requires IsDigits(a) && IsDigits(b) && !IsDigit(w)
    ensures RemoveAll(a + [w] + b, w) == a + b
  {
    assert RemoveAll([w], w) == [] by {
      assert [w][1..] == [];
    }
    RemoveAllAbsent(a, w);
    RemoveAllAbsent(b, w);
    RemoveAllAppend(a, [w], w);
    RemoveAllAppend(a + [w], b, w);
    assert a + [] == a;
  }

  /** A text of digits and the run characters `c` and `e` is a numeric run. */
  lemma RunOf(s: string, c: char, e: char)
    requires IsRunChar(c) && IsRunChar(e)
    requires forall k :: 0 <= k < |s| ==> IsDigit(s[k]) || s[k] == c || s[k] == e
    ensures forall k :: 0 <= k < |s| ==> IsRunChar(s[k])
  {
  }
}
