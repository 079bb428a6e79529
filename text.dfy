/**
 * The few Python string operations the pipeline relies on: `str(int)`,
 * `str.strip()`, `str.split(sep)[0]` and `[1]`, `str.startswith`, plus the
 * digit arithmetic needed to read decimal text back.
 */
module Text {

  predicate IsDigit(c: char) { '0' <= c <= '9' }

  function DigitValue(c: char): nat
    requires IsDigit(c)
  {
    (c - '0') as nat
  }

  function DigitChar(n: nat): (c: char)
    requires n < 10
    ensures IsDigit(c) && DigitValue(c) == n
  {
    ('0' as int + n) as char
  }

  predicate AllDigits(s: string) {
    forall i :: 0 <= i < |s| ==> IsDigit(s[i])
  }

  /** The number a string of decimal digits denotes (leading zeros allowed). */
  function DigitsValue(s: string): nat
    requires AllDigits(s)
    decreases |s|
  {
    if s == [] then 0 else 10 * DigitsValue(s[..|s| - 1]) + DigitValue(s[|s| - 1])
  }

  function Pow10(n: nat): (p: nat)
    ensures p > 0
  {
    if n == 0 then 1 else 10 * Pow10(n - 1)
  }

  /** Python's `str(n)` for a non-negative integer. */
  function NatToText(n: nat): (r: string)
    ensures |r| > 0 && AllDigits(r)
    decreases n
  {
    if n < 10 then [DigitChar(n)] else NatToText(n / 10) + [DigitChar(n % 10)]
  }

  /** Python's `str(i)` (and an f-string's rendering) of any integer. */
  function IntToText(i: int): string {
    if i < 0 then "-" + NatToText(-i) else NatToText(i)
  }

  /** Reading back the decimal text of a natural number gives that number. */
  lemma {:induction false} NatToTextRoundTrip(n: nat)
    ensures DigitsValue(NatToText(n)) == n
    decreases n
  {
    if n >= 10 {
      NatToTextRoundTrip(n / 10);
      var r := NatToText(n);
      assert r[..|r| - 1] == NatToText(n / 10);
    }
  }

  /** A number below 10^width takes at most `width` digits. */
  lemma {:induction false} NatToTextWidth(n: nat, width: nat)
    requires 0 < width && n < Pow10(width)
    ensures |NatToText(n)| <= width
    decreases n
  {
    if n >= 10 {
      assert width > 1;
      var p := Pow10(width - 1);
      assert n < 10 * p;
      assert n / 10 < p;
      NatToTextWidth(n / 10, width - 1);
    }
  }

  /** Different integers have different decimal texts. */
  lemma {:induction false} IntToTextInjective(a: int, b: int)
    requires IntToText(a) == IntToText(b)
    ensures a == b
  {
    SignOfText(a);
    SignOfText(b);
    var ma: nat, mb: nat := if a < 0 then -a else a, if b < 0 then -b else b;
    NatToTextRoundTrip(ma);
    NatToTextRoundTrip(mb);
  }

  /** The text of an integer starts with `-` exactly when it is negative,
      and the digits of its magnitude follow. */
  lemma {:induction false} SignOfText(i: int)
    ensures var t, m := IntToText(i), if i < 0 then -i else i;
      && |t| > 0 && (t[0] == '-' <==> i < 0)
      && t[if i < 0 then 1 else 0..] == NatToText(m)
  {
    var m: nat := if i < 0 then -i else i;
    assert IsDigit(NatToText(m)[0]);
  }

  /** The decimal text of an integer is never empty and never contains `c`
      unless `c` is a digit or the minus sign. */
  lemma {:induction false} IntToTextChars(i: int, c: char)
    requires !IsDigit(c) && c != '-'
    ensures |IntToText(i)| > 0 && c !in IntToText(i)
  {
  }

  // ---------------------------------------------------------------------
  // Whitespace and str.strip()

  /** The characters for which Python's `str.isspace()` holds. */
  predicate IsSpace(c: char) {
    || '\t' <= c <= '\r' || '\U{1c}' <= c <= '\U{1f}' || c == ' '
    || c == '\U{85}' || c == '\U{a0}' || c == '\U{1680}'
    || '\U{2000}' <= c <= '\U{200a}' || c == '\U{2028}' || c == '\U{2029}'
    || c == '\U{202f}' || c == '\U{205f}' || c == '\U{3000}'
  }

  /** How many whitespace characters `s` starts with. */
  function LeadingSpace(s: string): (n: nat)
    ensures n <= |s|
    ensures forall k :: 0 <= k < n ==> IsSpace(s[k])
    ensures n < |s| ==> !IsSpace(s[n])
    decreases |s|
  {
    if s != [] && IsSpace(s[0]) then 1 + LeadingSpace(s[1..]) else 0
  }

  /** How many whitespace characters `s` ends with. */
  function TrailingSpace(s: string): (n: nat)
    ensures n <= |s|
    ensures forall k :: |s| - n <= k < |s| ==> IsSpace(s[k])
    ensures n < |s| ==> !IsSpace(s[|s| - n - 1])
    decreases |s|
  {
    if s != [] && IsSpace(s[|s| - 1]) then 1 + TrailingSpace(s[..|s| - 1]) else 0
  }

  /** `s.strip()`: `lstrip` followed by `rstrip`. */
  function Strip(s: string): string {
    var t := s[LeadingSpace(s)..];
    t[..|t| - TrailingSpace(t)]
  }

  /**
   * `s.strip()` removes whitespace only, and all of it at both ends: the
   * result is the slice `s[i..j]`, everything outside the slice is
   * whitespace, and the slice neither starts nor ends with whitespace.
   */
  lemma {:induction false} StripSlice(s: string)
    ensures var r, i := Strip(s), LeadingSpace(s);
      && i + |r| <= |s| && r == s[i..i + |r|]
      && (forall k :: 0 <= k < i ==> IsSpace(s[k]))
      && (forall k :: i + |r| <= k < |s| ==> IsSpace(s[k]))
      && (r == [] || (!IsSpace(r[0]) && !IsSpace(r[|r| - 1])))
  {
    var i := LeadingSpace(s);
    var t := s[i..];
    var j := TrailingSpace(t);
    var r := t[..|t| - j];
    SliceOfSuffix(s, i, |t| - j);
    forall k | i + |r| <= k < |s|
      ensures IsSpace(s[k])
    {
      assert s[k] == t[k - i];
    }
    if r != [] {
      assert r[0] == t[0] && r[|r| - 1] == t[|t| - j - 1];
    }
  }

  /** A prefix of a suffix of `s` is a slice of `s`. */
  lemma {:induction false} SliceOfSuffix(s: string, i: nat, n: nat)
    requires i + n <= |s|
    ensures s[i..][..n] == s[i..i + n]
  {
  }

  /** Stripping twice is stripping once. */
  lemma {:induction false} StripIdempotent(s: string)
    ensures Strip(Strip(s)) == Strip(s)
  {
    var r := Strip(s);
    StripSlice(s);
    assert LeadingSpace(r) == 0;
    assert r[0..] == r;
    assert TrailingSpace(r) == 0;
  }

  // ---------------------------------------------------------------------
  // str.split(sep) and str.startswith

  /** `s.split(sep)[0]`: the text before the first `sep`, or all of `s`. */
  function Before(s: string, sep: char): (r: string)
    ensures |r| <= |s| && r == s[..|r|] && sep !in r
    ensures |r| == |s| || s[|r|] == sep
    decreases |s|
  {
    if s == [] || s[0] == sep then [] else [s[0]] + Before(s[1..], sep)
  }

  /** `s.split(sep)[1]`: the text between the first and the second `sep`
      (or the end).  Python raises IndexError when `sep` does not occur. */
  function SecondField(s: string, sep: char): (r: string)
    requires sep in s
    ensures sep !in r
  {
    var head := Before(s, sep);
    Before(s[|head| + 1..], sep)
  }

  /** When `sep` does not occur in `a`, the first field of `a + [sep] + b` is `a`. */
  lemma {:induction false} BeforeJoin(a: string, sep: char, b: string)
    requires sep !in a
    ensures Before(a + [sep] + b, sep) == a
    decreases |a|
  {
    if a != [] {
      assert (a + [sep] + b)[1..] == a[1..] + [sep] + b;
      BeforeJoin(a[1..], sep, b);
    }
  }

  /** Without `sep`, the first field is the whole text. */
  lemma {:induction false} BeforeWhole(s: string, sep: char)
    requires sep !in s
    ensures Before(s, sep) == s
  {
  }

  predicate StartsWith(s: string, prefix: string) {
    |prefix| <= |s| && s[..|prefix|] == prefix
  }
}
