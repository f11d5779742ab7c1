/** Exact decimal numbers and the subset of Python's `Decimal(str)` parser that
    the price normaliser can reach: an optional sign, decimal digits and at most
    one decimal point, with surrounding whitespace ignored. */
module Decimals {
  import opened Wrappers
  import opened Text

  /** The number `mantissa / 10^scale`, as Python's `Decimal` keeps it. */
  datatype Decimal = Decimal(mantissa: int, scale: nat)

  function Pow10(n: nat): (r: nat)
    ensures r >= 1
  {
    if n == 0 then 1 else 10 * Pow10(n - 1)
  }

  /** The exact value a decimal denotes. */
  function ValueOf(d: Decimal): real {
    d.mantissa as real / Pow10(d.scale) as real
  }

  function DigitValue(c: char): nat
    requires IsDigit(c)
  {
    (c - '0') as nat
  }

  function DigitChar(n: nat): (c: char)
    requires n < 10
    ensures IsDigit(c) && DigitValue(c) == n
  {
    '0' + n as char
  }

  /** The number a string of decimal digits spells (0 for the empty string). */
  function DigitsValue(s: string): nat
    requires IsDigits(s)
  {
    if s == [] then 0 else DigitsValue(s[..|s| - 1]) * 10 + DigitValue(s[|s| - 1])
  }

  /** Python's `str(n)` for a natural number. */
  function NatDigits(n: nat): (s: string)
    ensures s != [] && IsDigits(s)
  {
    if n < 10 then [DigitChar(n)] else NatDigits(n / 10) + [DigitChar(n % 10)]
  }

  lemma {:induction false} NatDigitsValue(n: nat)
    ensures DigitsValue(NatDigits(n)) == n
  {
    if n >= 10 {
      var s := NatDigits(n);
      assert s[..|s| - 1] == NatDigits(n / 10);
      NatDigitsValue(n / 10);
    }
  }

  lemma {:induction false} DigitsValueAppend(s: string, t: string)
    requires IsDigits(s) && IsDigits(t)
    ensures IsDigits(s + t) && DigitsValue(s + t) == DigitsValue(s) * Pow10(|t|) + DigitsValue(t)
    decreases |t|
  {
    if t != [] {
      var u := s + t;
      var t' := t[..|t| - 1];
      var last := DigitValue(t[|t| - 1]);
      assert u[..|u| - 1] == s + t' && u[|u| - 1] == t[|t| - 1];
      DigitsValueAppend(s, t');
      assert DigitsValue(u) == DigitsValue(s + t') * 10 + last;
      assert DigitsValue(t) == DigitsValue(t') * 10 + last;
      ShiftDigit(DigitsValue(s), Pow10(|t'|), DigitsValue(t'), last);
    } else {
      assert s + t == s;
    }
  }

  /** Appending one digit to `x` followed by `y`: the arithmetic step of
      DigitsValueAppend. */
  lemma ShiftDigit(x: nat, p: nat, y: nat, last: nat)
    ensures (x * p + y) * 10 + last == x * (10 * p) + (y * 10 + last)
  {
  }

  function Zeros(n: nat): (s: string)
    ensures |s| == n && IsDigits(s) && DigitsValue(s) == 0
  {
    if n == 0 then [] else
      var z := Zeros(n - 1) + "0";
      assert z[..|z| - 1] == Zeros(n - 1);
      z
  }

  /** Leading zeros do not change the value of a digit string. */
  lemma LeadingZeros(n: nat, s: string)
    requires IsDigits(s)
    ensures IsDigits(Zeros(n) + s) && DigitsValue(Zeros(n) + s) == DigitsValue(s)
  {
    var z := Zeros(n);
    DigitsValueAppend(z, s);
    assert DigitsValue(z) * Pow10(|s|) == 0;
  }

  /** `s` left-padded with zeros to at least `width` characters. */
  function PadDigits(s: string, width: nat): (r: string)
    requires IsDigits(s)
    ensures |r| >= width && |r| >= |s| && IsDigits(r) && DigitsValue(r) == DigitsValue(s)
  {
    if |s| >= width then s
    else LeadingZeros(width - |s|, s); Zeros(width - |s|) + s
  }

  /** The index of the first `c` in `s` at or after `i`, or `|s|` when there is none. */
  function IndexFrom(s: string, c: char, i: nat): (k: nat)
    requires i <= |s|
    ensures i <= k <= |s| && (k < |s| ==> s[k] == c)
    decreases |s| - i
  {
    if i == |s| || s[i] == c then i else IndexFrom(s, c, i + 1)
  }

  /** The index of the first `c` in `s`, or `|s|` when there is none. */
  function IndexOf(s: string, c: char): (k: nat)
    ensures k <= |s| && (k < |s| ==> s[k] == c)
  {
    IndexFrom(s, c, 0)
  }

  lemma {:induction false} IndexFromFirst(s: string, c: char, i: nat)
    requires i <= |s|
    ensures forall j :: i <= j < IndexFrom(s, c, i) ==> s[j] != c
    decreases |s| - i
  {
    if i < |s| && s[i] != c {
      IndexFromFirst(s, c, i + 1);
    }
  }

  /** The first occurrence is the index of the first `c`. */
  lemma IndexOfAt(s: string, c: char, i: nat)
    requires i <= |s| && (i < |s| ==> s[i] == c) && forall j :: 0 <= j < i ==> s[j] != c
    ensures IndexOf(s, c) == i
  {
    IndexFromFirst(s, c, 0);
  }

  /** The unsigned part of a literal: digits, then at most one `.` and more
      digits, with at least one digit in all (`12`, `12.`, `.5`, `12.50`). */
  predicate IsLiteralBody(b: string) {
    var dot := IndexOf(b, '.');
    IsDigits(b[..dot]) && (dot == |b| || IsDigits(b[dot + 1..])) && (dot > 0 || dot + 1 < |b|)
  }

  /** The value of an unsigned literal: its digits as the mantissa and the
      number of digits after the point as the scale. */
  function ParseUnsigned(body: string): Option<Decimal> {
    if IsLiteralBody(body) then
      var dot := IndexOf(body, '.');
      var frac := if dot < |body| then body[dot + 1..] else [];
      Some(Decimal(DigitsValue(body[..dot] + frac), |frac|))
    else None
  }

  /** `Decimal(v)` restricted to the characters the normaliser leaves: `None`
      where Python raises `InvalidOperation`. */
  function ParseDecimal(v: string): Option<Decimal> {
    var t := Strip(v);
    var negative := t != [] && t[0] == '-';
    var body := if t != [] && IsSign(t[0]) then t[1..] else t;
    match ParseUnsigned(body)
    case None => None
    case Some(d) => Some(if negative then Decimal(-d.mantissa, d.scale) else d)
  }

  /** A stripped text that starts with a digit is parsed as an unsigned literal. */
  lemma ParseUnsignedStart(v: string)
    requires v != [] && IsDigit(v[0]) && IsStripped(v)
    ensures ParseDecimal(v) == ParseUnsigned(v)
  {
    StripStripped(v);
  }

  /** A digit string with a `.` before its last `scale` digits. */
  function PointText(ds: string, scale: nat): (t: string)
    requires IsDigits(ds) && |ds| > scale
    ensures t != [] && IsDigit(t[0]) && IsStripped(t)
  {
    if scale == 0 then ds else ds[..|ds| - scale] + "." + ds[|ds| - scale..]
  }

  /** The text holds digits and at most the point. */
  lemma PointTextChars(ds: string, scale: nat)
    requires IsDigits(ds) && |ds| > scale
    ensures var t := PointText(ds, scale);
      forall k :: 0 <= k < |t| ==> IsDigit(t[k]) || t[k] == '.'
  {
  }

  /** The digits of `m`, padded to more than `scale` digits, with a `.` before
      the last `scale` of them. */
  function UnsignedText(m: nat, scale: nat): (t: string)
    ensures t != [] && IsDigit(t[0]) && IsStripped(t)
  {
    PointText(PadDigits(NatDigits(m), scale + 1), scale)
  }

  lemma UnsignedTextChars(m: nat, scale: nat)
    ensures var t := UnsignedText(m, scale);
      forall k :: 0 <= k < |t| ==> IsDigit(t[k]) || t[k] == '.'
  {
    PointTextChars(PadDigits(NatDigits(m), scale + 1), scale);
  }

  /** The canonical text of a decimal: a `-` for negative values, then the
      digits with a `.` before the last `scale` of them. */
  function FormatDecimal(d: Decimal): string {
    if d.mantissa < 0 then "-" + UnsignedText(-d.mantissa, d.scale)
    else UnsignedText(d.mantissa, d.scale)
  }

  /** Parsing an integer part, a point and a fraction gives the digits as the
      mantissa and the length of the fraction as the scale. */
  lemma ParsePointed(a: string, f: string)
    requires a != [] && IsDigits(a) && IsDigits(f)
    ensures ParseDecimal(a + "." + f) == Some(Decimal(DigitsValue(a + f), |f|))
  {
    var v := a + "." + f;
    assert IsStripped(v) && IsDigit(v[0]);
    ParseUnsignedStart(v);
    UnsignedPointed(a, f);
  }

  lemma UnsignedPointed(a: string, f: string)
    requires a != [] && IsDigits(a) && IsDigits(f)
    ensures ParseUnsigned(a + "." + f) == Some(Decimal(DigitsValue(a + f), |f|))
  {
    var v := a + "." + f;
    assert IndexOf(v, '.') == |a| by {
      assert v[|a|] == '.';
      assert forall j :: 0 <= j < |a| ==> v[j] == a[j];
      IndexOfAt(v, '.', |a|);
    }
    assert v[..|a|] == a;
    assert v[|a| + 1..] == f;
  }

  /** Parsing a digit string gives its value with scale 0. */
  lemma ParseDigits(a: string)
    requires a != [] && IsDigits(a)
    ensures ParseDecimal(a) == Some(Decimal(DigitsValue(a), 0))
  {
    ParseUnsignedStart(a);
    UnsignedDigits(a);
  }

  lemma UnsignedDigits(a: string)
    requires a != [] && IsDigits(a)
    ensures ParseUnsigned(a) == Some(Decimal(DigitsValue(a), 0))
  {
    IndexOfAt(a, '.', |a|);
    assert a[..|a|] == a;
    assert a + [] == a;
  }

  lemma ParsePointText(ds: string, scale: nat)
    requires IsDigits(ds) && |ds| > scale
    ensures ParseUnsigned(PointText(ds, scale)) == Some(Decimal(DigitsValue(ds), scale))
  {
    if scale == 0 {
      UnsignedDigits(ds);
    } else {
      var n := |ds| - scale;
      var a, f := ds[..n], ds[n..];
      assert IsDigits(a) && IsDigits(f) && a + f == ds && a != [] && |f| == scale by {
        DigitsSplit(ds, n);
      }
      UnsignedPointed(a, f);
    }
  }

  lemma DigitsSplit(ds: string, n: nat)
    requires IsDigits(ds) && n <= |ds|
    ensures IsDigits(ds[..n]) && IsDigits(ds[n..]) && ds[..n] + ds[n..] == ds
  {
  }

  /** The unsigned text of a decimal parses to its magnitude. */
  lemma ParseUnsignedText(m: nat, scale: nat)
    ensures ParseUnsigned(UnsignedText(m, scale)) == Some(Decimal(m, scale))
  {
    NatDigitsValue(m);
    ParsePointText(PadDigits(NatDigits(m), scale + 1), scale);
  }

  /** A minus sign in front of an unsigned literal negates its value. */
  lemma ParseNegated(body: string, d: Decimal)
    requires body != [] && IsDigit(body[0]) && IsStripped(body)
    requires ParseUnsigned(body) == Some(d)
    ensures ParseDecimal("-" + body) == Some(Decimal(-d.mantissa, d.scale))
  {
    var t := "-" + body;
    assert IsStripped(t) && t[0] == '-' && t[1..] == body;
    ParseMinus(t, d);
  }

  /** A stripped text that starts with `-` is the negation of the rest. */
  lemma ParseMinus(t: string, d: Decimal)
    requires IsStripped(t) && t != [] && t[0] == '-' && ParseUnsigned(t[1..]) == Some(d)
    ensures ParseDecimal(t) == Some(Decimal(-d.mantissa, d.scale))
  {
    StripStripped(t);
  }

  /** The canonical text of every decimal parses back to that decimal. */
  lemma FormatParseRoundTrip(d: Decimal)
    ensures ParseDecimal(FormatDecimal(d)) == Some(d)
  {
    var negative := d.mantissa < 0;
    var m: nat := if negative then -d.mantissa else d.mantissa;
    var t := UnsignedText(m, d.scale);
    var u := Decimal(m, d.scale);
    assert ParseUnsigned(t) == Some(u) by {
      ParseUnsignedText(m, d.scale);
    }
    assert d == if negative then Decimal(-u.mantissa, u.scale) else u;
    SignedParse(t, u, negative, FormatDecimal(d), d);
  }

  /** An unsigned literal, or a minus sign and one, parses to its value or
      the negation of that value. */
  lemma SignedParse(t: string, u: Decimal, negative: bool, s: string, d: Decimal)
    requires t != [] && IsDigit(t[0]) && IsStripped(t) && ParseUnsigned(t) == Some(u)
    requires s == if negative then "-" + t else t
    requires d == if negative then Decimal(-u.mantissa, u.scale) else u
    ensures ParseDecimal(s) == Some(d)
  {
    if negative {
      ParseNegated(t, u);
    } else {
      ParseUnsignedStart(t);
    }
  }
}
