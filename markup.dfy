/** What the scraper reads from a fetched page, and `_first_non_empty_text`.
    The HTML parser, its CSS and XPath engines and `json.loads` are library
    code; a page is therefore given by what those return. */
module Markup {
  import opened Wrappers
  import opened Text
  import opened JsonData

  /** The two query languages of the locator. */
  datatype QueryKind = Css | XPath

  /** The outcome of a user-supplied query: the matched strings, or the
      message of the exception the query engine raised. */
  datatype QueryResult = Failed(message: string) | Found(matches: seq<string>)

  /** A fetched page:
      - `css` and `xpath`: the strings a fixed, valid query matches (`getall()`);
      - `query`: a query given by the user, which may raise;
      - `markupText`: `Selector(text=v).xpath("string()").get()`, the text
        content of a fragment of markup;
      - `parseJson`: `json.loads`, nothing where it raises. */
  datatype Page = Page(
    css: string -> seq<string>,
    xpath: string -> seq<string>,
    query: (QueryKind, string) -> QueryResult,
    markupText: string -> string,
    parseJson: string -> Option<Json>)

  /** What `_first_non_empty_text` takes from one candidate: nothing for a
      blank one; for one that looks like markup, the stripped text content
      when that is not blank; otherwise the stripped candidate. */
  function CandidateText(candidate: string, markupText: string -> string): Option<string> {
    var value := Strip(candidate);
    if value == [] then None
    else if '<' in value && '>' in value then
      var text := Strip(markupText(value));
      if text == [] then None else Some(text)
    else Some(value)
  }

  /** The per-candidate test, as one function value. */
  function CandidateTextOf(markupText: string -> string): string -> Option<string> {
    c => CandidateText(c, markupText)
  }

  /** `_first_non_empty_text`: the text of the first candidate that has one. */
  function FirstNonEmpty(candidates: seq<string>, markupText: string -> string): Option<string> {
    FirstSome(candidates, CandidateTextOf(markupText))
  }

  /** `_first_non_empty_text`, as the loop it is. */
  method FirstNonEmptyText(candidates: seq<string>, markupText: string -> string) returns (r: Option<string>)
    ensures r == FirstNonEmpty(candidates, markupText)
  {
    var i := 0;
    while i < |candidates|
      invariant i <= |candidates|
      invariant FirstSome(candidates[i..], CandidateTextOf(markupText)) == FirstNonEmpty(candidates, markupText)
    {
      FirstSomeStep(candidates, CandidateTextOf(markupText), i);
      var text := Candidate(candidates[i], markupText);
      assert text == CandidateTextOf(markupText)(candidates[i]);
      if text.Some? {
        return text;
      }
      i := i + 1;
    }
    return None;
  }

  /** The body of the loop of `_first_non_empty_text` for one candidate. */
  method Candidate(candidate: string, markupText: string -> string) returns (r: Option<string>)
    ensures r == CandidateText(candidate, markupText)
  {
    if candidate == [] {
      return None;
    }
    var value := Strip(candidate);
    if value == [] {
      return None;
    }
    if '<' in value && '>' in value {
      var text := markupText(value);
      if text != [] && Strip(text) != [] {
        return Some(Strip(text));
      }
      return None;
    }
    return Some(value);
  }

  /** Whatever a candidate yields is non-empty and stripped. */
  lemma CandidateTextStripped(candidate: string, markupText: string -> string)
    ensures var r := CandidateText(candidate, markupText);
      r.Some? ==> r.value != [] && IsStripped(r.value)
  {
  }

  /** The picked text is non-empty and stripped, and it is what the first
      successful candidate yields, every earlier candidate yielding nothing. */
  lemma FirstNonEmptySpec(candidates: seq<string>, markupText: string -> string)
    ensures var r := FirstNonEmpty(candidates, markupText);
      && (r.Some? ==> r.value != [] && IsStripped(r.value))
      && (r.Some? ==>
            exists k :: 0 <= k < |candidates| && CandidateText(candidates[k], markupText) == r
              && forall j :: 0 <= j < k ==> CandidateText(candidates[j], markupText).None?)
      && (r.None? <==> forall k :: 0 <= k < |candidates| ==> CandidateText(candidates[k], markupText).None?)
  {
    var r := FirstNonEmpty(candidates, markupText);
    if r.Some? {
      var k :| 0 <= k < |candidates| && CandidateTextOf(markupText)(candidates[k]) == r;
      CandidateTextStripped(candidates[k], markupText);
    }
    if forall k :: 0 <= k < |candidates| ==> CandidateText(candidates[k], markupText).None? {
      assert forall k :: 0 <= k < |candidates| ==> CandidateTextOf(markupText)(candidates[k]).None?;
    }
  }

  /** Blank candidates are skipped. */
  lemma BlankSkipped(c: string, rest: seq<string>, markupText: string -> string)
    requires IsBlank(c)
    ensures FirstNonEmpty([c] + rest, markupText) == FirstNonEmpty(rest, markupText)
  {
    StripBlank(c);
    assert ([c] + rest)[1..] == rest;
  }

  /** A candidate that is not markup is returned stripped. */
  lemma PlainCandidate(c: string, rest: seq<string>, markupText: string -> string)
    requires !IsBlank(c) && !('<' in Strip(c) && '>' in Strip(c))
    ensures FirstNonEmpty([c] + rest, markupText) == Some(Strip(c))
  {
    StripBlank(c);
  }
}
