/** The string operations of Python that the scraper relies on: `str.strip()`,
    `str.replace`, `str.count`, `str.rfind`, the `in` operator on strings,
    ASCII case mapping and the regular-expression character classes. */
module Text {

  /** Python's `str.isspace()`: the characters `\s` matches and `strip()` removes. */
  predicate IsSpace(c: char) {
    c == ' ' || ('\t' <= c <= '\r') || ('\U{1C}' <= c <= '\U{1F}') || c == '\U{85}' || c == '\U{A0}'
    || c == '\U{1680}' || ('\U{2000}' <= c <= '\U{200A}') || c == '\U{2028}' || c == '\U{2029}'
    || c == '\U{202F}' || c == '\U{205F}' || c == '\U{3000}'
  }

  predicate IsDigit(c: char) { '0' <= c <= '9' }

  predicate IsSign(c: char) { c == '+' || c == '-' }

  /** `\w`, restricted to ASCII. */
  predicate IsWordChar(c: char) { 'a' <= c <= 'z' || 'A' <= c <= 'Z' || IsDigit(c) || c == '_' }

  predicate IsDigits(s: string) { forall i :: 0 <= i < |s| ==> IsDigit(s[i]) }

  /** A string that consists of whitespace only (Python: `not s.strip()`). */
  predicate IsBlank(s: string) { forall i :: 0 <= i < |s| ==> IsSpace(s[i]) }

  /** Neither end of the string is whitespace. */
  predicate IsStripped(s: string) { s == [] || (!IsSpace(s[0]) && !IsSpace(s[|s| - 1])) }

  /** The index of the first non-whitespace character at or after `i`, or `|s|`. */
  function SkipSpaces(s: string, i: nat): (r: nat)
    requires i <= |s|
    ensures i <= r <= |s| && (r < |s| ==> !IsSpace(s[r]))
    decreases |s| - i
  {
    if i < |s| && IsSpace(s[i]) then SkipSpaces(s, i + 1) else i
  }

  /** The end of the text once the whitespace before `j` is dropped. */
  function SkipSpacesBack(s: string, j: nat): (r: nat)
    requires j <= |s|
    ensures r <= j && (r > 0 ==> !IsSpace(s[r - 1]))
  {
    if j > 0 && IsSpace(s[j - 1]) then SkipSpacesBack(s, j - 1) else j
  }

  lemma {:induction false} SkipSpacesSkipsSpaces(s: string, i: nat)
    requires i <= |s|
    ensures forall k :: i <= k < SkipSpaces(s, i) ==> IsSpace(s[k])
    decreases |s| - i
  {
    if i < |s| && IsSpace(s[i]) {
      SkipSpacesSkipsSpaces(s, i + 1);
    }
  }

  lemma {:induction false} SkipSpacesBackSkipsSpaces(s: string, j: nat)
    requires j <= |s|
    ensures forall k :: SkipSpacesBack(s, j) <= k < j ==> IsSpace(s[k])
  {
    if j > 0 && IsSpace(s[j - 1]) {
      SkipSpacesBackSkipsSpaces(s, j - 1);
    }
  }

  /** Python's `s.lstrip()`. */
  function StripLeft(s: string): (r: string)
    ensures |r| <= |s|
  {
    s[SkipSpaces(s, 0)..]
  }

  /** Python's `s.strip()`: the text between the first and the last character
      that is not whitespace; the result has no whitespace at either end. */
  function Strip(s: string): (r: string)
    ensures IsStripped(r)
  {
    var i := SkipSpaces(s, 0);
    var j := SkipSpacesBack(s, |s|);
    if i < j then s[i..j] else []
  }

  /** What `strip()` returns: the text with its leading and its trailing
      whitespace removed, and nothing else. */
  lemma StripSpec(s: string)
    ensures IsStripped(Strip(s))
    ensures exists i, j :: 0 <= i <= j <= |s| && Strip(s) == s[i..j] && IsBlank(s[..i]) && IsBlank(s[j..])
  {
    var i := SkipSpaces(s, 0);
    var j := SkipSpacesBack(s, |s|);
    SkipSpacesSkipsSpaces(s, 0);
    SkipSpacesBackSkipsSpaces(s, |s|);
    if i < j {
      assert IsBlank(s[..i]) && IsBlank(s[j..]);
    } else {
      assert Strip(s) == s[i..i];
      assert IsBlank(s[..i]) && IsBlank(s[i..]);
    }
  }

  /** The stripped text is empty exactly when the text is blank. */
  lemma StripBlank(s: string)
    ensures Strip(s) == [] <==> IsBlank(s)
  {
    var i := SkipSpaces(s, 0);
    var j := SkipSpacesBack(s, |s|);
    SkipSpacesSkipsSpaces(s, 0);
    SkipSpacesBackSkipsSpaces(s, |s|);
    if i < j {
      assert !IsSpace(s[i]);
    }
  }

  /** Stripping a stripped string changes nothing. */
  lemma StripStripped(s: string)
    requires IsStripped(s)
    ensures Strip(s) == s
  {
    if s != [] {
      assert SkipSpaces(s, 0) == 0;
      assert SkipSpacesBack(s, |s|) == |s|;
      assert s[0..|s|] == s;
    }
  }

  /** Stripping keeps a first character that is not whitespace. */
  lemma StripPrefix(s: string)
    requires s != [] && !IsSpace(s[0])
    ensures Strip(s) != [] && Strip(s)[0] == s[0]
  {
    assert SkipSpaces(s, 0) == 0;
    SkipSpacesBackSkipsSpaces(s, |s|);
  }

  /** Python's `s.replace(c, "")`. */
  function RemoveAll(s: string, c: char): (r: string)
    ensures c !in r
  {
    if s == [] then [] else (if s[0] == c then [] else [s[0]]) + RemoveAll(s[1..], c)
  }

  lemma {:induction false} RemoveAllAppend(s: string, t: string, c: char)
    ensures RemoveAll(s + t, c) == RemoveAll(s, c) + RemoveAll(t, c)
  {
    if s == [] {
      assert s + t == t;
    } else {
      assert (s + t)[0] == s[0];
      assert (s + t)[1..] == s[1..] + t;
      RemoveAllAppend(s[1..], t, c);
    }
  }

  lemma {:induction false} RemoveAllAbsent(s: string, c: char)
    requires c !in s
    ensures RemoveAll(s, c) == s
  {
    if s != [] {
      assert s[1..] + [] == s[1..];
      RemoveAllAbsent(s[1..], c);
      assert [s[0]] + s[1..] == s;
    }
  }

  /** Python's `s.replace(c, d)` for single characters. */
  function ReplaceChar(s: string, c: char, d: char): (r: string)
    ensures |r| == |s|
    ensures forall i :: 0 <= i < |s| ==> r[i] == if s[i] == c then d else s[i]
  {
    seq(|s|, i requires 0 <= i < |s| => if s[i] == c then d else s[i])
  }

  /** Python's `s.count(c)` for a single character. */
  function CountOf(s: string, c: char): (n: nat)
    ensures n <= |s|
    ensures n == 0 <==> c !in s
  {
    if s == [] then 0 else (if s[0] == c then 1 else 0) + CountOf(s[1..], c)
  }

  lemma {:induction false} CountOfAppend(s: string, t: string, c: char)
    ensures CountOf(s + t, c) == CountOf(s, c) + CountOf(t, c)
  {
    if s == [] {
      assert s + t == t;
    } else {
      assert (s + t)[0] == s[0];
      assert (s + t)[1..] == s[1..] + t;
      CountOfAppend(s[1..], t, c);
    }
  }

  /** Python's `s.rfind(c)`: an index of `c`, or -1 when there is none. */
  function RFind(s: string, c: char): (r: int)
    ensures -1 <= r < |s|
    ensures r == -1 <==> c !in s
    ensures r >= 0 ==> s[r] == c
  {
    if s == [] then -1
    else if s[|s| - 1] == c then |s| - 1
    else
      var r := RFind(s[..|s| - 1], c);
      assert r >= 0 ==> s[..|s| - 1][r] == s[r];
      assert c in s[..|s| - 1] <==> c in s;
      r
  }

  /** RFind finds the last occurrence. */
  lemma {:induction false} RFindLast(s: string, c: char)
    ensures forall k :: RFind(s, c) < k < |s| ==> s[k] != c
  {
    if s != [] && s[|s| - 1] != c {
      RFindLast(s[..|s| - 1], c);
      assert forall k :: 0 <= k < |s| - 1 ==> s[..|s| - 1][k] == s[k];
    }
  }

  /** The rightmost occurrence is determined by the last part that contains `c`. */
  lemma RFindAppend(s: string, t: string, c: char)
    ensures RFind(s + t, c) == if c in t then |s| + RFind(t, c) else RFind(s, c)
  {
    var u := s + t;
    var r := RFind(u, c);
    RFindLast(u, c);
    RFindLast(s, c);
    RFindLast(t, c);
    if c in t {
      var q := RFind(t, c);
      assert u[|s| + q] == c;
      assert r == |s| + q;
    } else {
      if c in s {
        var p := RFind(s, c);
        assert u[p] == c;
        assert r == p;
      } else {
        assert c !in u;
      }
    }
  }

  /** Python's `p in t` for strings. */
  predicate IsInfix(p: string, t: string)
    decreases |t|
  {
    |p| <= |t| && (t[..|p|] == p || IsInfix(p, t[1..]))
  }

  /** Every character of an infix occurs in the text. */
  lemma {:induction false} InfixChars(p: string, t: string, i: nat)
    requires IsInfix(p, t) && i < |p|
    ensures p[i] in t
    decreases |t|
  {
    if t[..|p|] == p {
      assert t[i] == p[i];
    } else {
      InfixChars(p, t[1..], i);
      assert t[1..][RFindIndex(t[1..], p[i])] == p[i];
    }
  }

  function RFindIndex(s: string, c: char): (k: nat)
    requires c in s
    ensures k < |s| && s[k] == c
  {
    RFind(s, c)
  }

  function UpperChar(c: char): char { if 'a' <= c <= 'z' then c - 'a' + 'A' as char else c }

  function LowerChar(c: char): char { if 'A' <= c <= 'Z' then c - 'A' + 'a' as char else c }

  /** `str.upper()` on the ASCII letters; every other character is kept. */
  function Upper(s: string): (r: string)
    ensures |r| == |s| && forall i :: 0 <= i < |s| ==> r[i] == UpperChar(s[i])
  {
    seq(|s|, i requires 0 <= i < |s| => UpperChar(s[i]))
  }

  /** `str.lower()` on the ASCII letters; every other character is kept. */
  function Lower(s: string): (r: string)
    ensures |r| == |s| && forall i :: 0 <= i < |s| ==> r[i] == LowerChar(s[i])
  {
    seq(|s|, i requires 0 <= i < |s| => LowerChar(s[i]))
  }

  /** Upper-casing is idempotent. */
  lemma UpperIdempotent(s: string)
    ensures Upper(Upper(s)) == Upper(s)
  {
  }

  /** `re.sub(r"\s+", " ", s)`: every maximal run of whitespace becomes one space. */
  function CollapseSpaces(s: string): (r: string)
    ensures forall i :: 0 <= i < |r| && IsSpace(r[i]) ==> r[i] == ' '
    ensures forall i :: 0 <= i < |r| - 1 ==> !(r[i] == ' ' && r[i + 1] == ' ')
    ensures r == [] <==> s == []
    ensures s != [] && !IsSpace(s[0]) ==> r[0] == s[0]
    decreases |s|
  {
    if s == [] then []
    else if IsSpace(s[0]) then [' '] + CollapseSpaces(StripLeft(s[1..]))
    else [s[0]] + CollapseSpaces(s[1..])
  }

  /** A reference for `re.sub(r"\s+", " ", s)` that reads one character at a
      time: a whitespace character that starts a run of whitespace becomes one
      space, one that follows whitespace is dropped, and every other character
      is kept. `afterSpace` says whether the character before `s` was
      whitespace. */
  function Squeeze(s: string, afterSpace: bool): string {
    if s == [] then []
    else if IsSpace(s[0]) then (if afterSpace then [] else [' ']) + Squeeze(s[1..], true)
    else [s[0]] + Squeeze(s[1..], false)
  }

  /** Collapsing turns every maximal run of whitespace into one space and keeps
      every other character, in order. */
  lemma {:induction false} CollapseSpacesSpec(s: string)
    ensures CollapseSpaces(s) == Squeeze(s, false)
    decreases |s|
  {
    if s != [] {
      if IsSpace(s[0]) {
        var u := StripLeft(s[1..]);
        CollapseSpacesSpec(u);
        SqueezeSkipsSpaces(s[1..]);
        assert u == [] || !IsSpace(u[0]);
      } else {
        CollapseSpacesSpec(s[1..]);
      }
    }
  }

  /** After whitespace, further leading whitespace is dropped. */
  lemma {:induction false} SqueezeSkipsSpaces(t: string)
    ensures Squeeze(t, true) == Squeeze(StripLeft(t), true)
    decreases |t|
  {
    if t != [] && IsSpace(t[0]) {
      StripLeftSpace(t);
      SqueezeSkipsSpaces(t[1..]);
    } else {
      assert SkipSpaces(t, 0) == 0;
    }
  }

  /** A leading whitespace character is one of those `lstrip()` removes. */
  lemma StripLeftSpace(t: string)
    requires t != [] && IsSpace(t[0])
    ensures StripLeft(t) == StripLeft(t[1..])
  {
    SkipSpacesShift(t, 0);
  }

  lemma {:induction false} SkipSpacesShift(t: string, i: nat)
    requires t != [] && i < |t|
    ensures SkipSpaces(t, i + 1) == SkipSpaces(t[1..], i) + 1
    decreases |t| - i
  {
    if i + 1 < |t| && IsSpace(t[i + 1]) {
      assert t[1..][i] == t[i + 1];
      SkipSpacesShift(t, i + 1);
    }
  }
}
