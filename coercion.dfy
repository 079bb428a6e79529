/**
 * `conversor_dados`, the weather normaliser's best-effort conversion of a
 * free-text measurement ("25,3 °C", "78%", "N/D") into a number.
 */
module Coercion {
  import opened Wrappers
  import opened Text
  import opened Values

  /** The characters of the class `[\d,\.]`. */
  predicate IsNumChar(c: char) { IsDigit(c) || c == ',' || c == '.' }

  /** Where the first character of the class occurs in `s` (|s| if nowhere). */
  function RunStart(s: string): (i: nat)
    ensures i <= |s|
    ensures forall k :: 0 <= k < i ==> !IsNumChar(s[k])
    ensures i < |s| ==> IsNumChar(s[i])
    decreases |s|
  {
    if s == [] || IsNumChar(s[0]) then 0 else 1 + RunStart(s[1..])
  }

  /** How many characters of the class `s` starts with. */
  function RunLength(s: string): (n: nat)
    ensures n <= |s|
    ensures forall k :: 0 <= k < n ==> IsNumChar(s[k])
    ensures n < |s| ==> !IsNumChar(s[n])
    decreases |s|
  {
    if s == [] || !IsNumChar(s[0]) then 0 else 1 + RunLength(s[1..])
  }

  /**
   * `re.search(r"[\d,\.]+", s)`: the leftmost, longest run of digits, commas
   * and dots, or `None` when `s` has none of them.
   */
  function FirstRun(s: string): (r: Option<string>)
    ensures r.None? <==> forall k :: 0 <= k < |s| ==> !IsNumChar(s[k])
    ensures r.Some? ==> |r.value| > 0 && forall k :: 0 <= k < |r.value| ==> IsNumChar(r.value[k])
  {
    var i := RunStart(s);
    if i == |s| then None else Some(s[i..i + RunLength(s[i..])])
  }

  /** `t.replace(",", ".")`. */
  function CommasToDots(t: string): (r: string)
    ensures |r| == |t| && ',' !in r
    ensures forall k :: 0 <= k < |t| && t[k] != ',' ==> r[k] == t[k]
    ensures forall k :: 0 <= k < |t| && t[k] == ',' ==> r[k] == '.'
  {
    seq(|t|, k requires 0 <= k < |t| => if t[k] == ',' then '.' else t[k])
  }

  predicate AtMostOneDot(t: string) {
    forall i, j :: 0 <= i < j < |t| && t[i] == '.' ==> t[j] != '.'
  }

  /** The exact value of the decimal numeral `whole` `.` `frac`. */
  function DecimalValue(whole: string, frac: string): real
    requires AllDigits(whole) && AllDigits(frac)
  {
    DigitsValue(whole) as real + DigitsValue(frac) as real / Pow10(|frac|) as real
  }

  /** The strings the comma replacement can produce from a run. */
  predicate DigitsAndDots(t: string) {
    forall k :: 0 <= k < |t| ==> IsDigit(t[k]) || t[k] == '.'
  }

  predicate HasDigit(t: string) {
    exists k :: 0 <= k < |t| && IsDigit(t[k])
  }

  /**
   * Python's `float(t)` on a string of digits and dots (the only strings the
   * run above can produce): it succeeds exactly when there is at most one
   * dot and at least one digit, and the value is then exact here.
   */
  function ParseDecimal(t: string): (r: Option<real>)
    requires DigitsAndDots(t)
    ensures r.Some? <==> AtMostOneDot(t) && HasDigit(t)
    ensures r.Some? ==> r.value >= 0.0
  {
    var whole := Before(t, '.');
    if |whole| == |t| then
      NoDot(t);
      if t == [] then None else Some(DigitsValue(t) as real)
    else
      var frac := t[|whole| + 1..];
      DotAt(t, |whole|);
      if '.' in frac || (whole == [] && frac == []) then None
      else Some(DecimalValue(whole, frac))
  }

  /** Digits and dots without a dot are digits only. */
  lemma {:induction false} NoDot(t: string)
    requires DigitsAndDots(t) && Before(t, '.') == t
    ensures AtMostOneDot(t) && AllDigits(t)
    ensures HasDigit(t) <==> t != []
  {
    assert forall k :: 0 <= k < |t| ==> t[k] != '.';
    if t != [] {
      assert IsDigit(t[0]);
    }
  }

  /** The split of digits and dots at its first dot, at `i`. */
  lemma {:induction false} DotAt(t: string, i: nat)
    requires DigitsAndDots(t) && i < |t| && Before(t, '.') == t[..i]
    ensures t[i] == '.' && AllDigits(t[..i])
    ensures AtMostOneDot(t) <==> '.' !in t[i + 1..]
    ensures '.' !in t[i + 1..] ==> AllDigits(t[i + 1..]) && (HasDigit(t) <==> i > 0 || i + 1 < |t|)
  {
    var whole, frac := t[..i], t[i + 1..];
    assert forall k :: 0 <= k < i ==> t[k] == whole[k] && t[k] != '.';
    assert forall k :: 0 <= k < |frac| ==> frac[k] == t[i + 1 + k];
    if '.' in frac {
      var j :| 0 <= j < |frac| && frac[j] == '.';
      assert t[i + 1 + j] == '.';
    } else {
      assert forall k :: i < k < |t| ==> t[k] == frac[k - i - 1];
      if i > 0 {
        assert IsDigit(t[0]);
      } else if i + 1 < |t| {
        assert IsDigit(t[i + 1]);
      }
    }
  }

  /** The no-data values of the feed: every falsy value, "N/D" and "-". */
  predicate IsNoData(v: Scalar) {
    !Truthy(v) || v == Str("N/D") || v == Str("-")
  }

  /**
   * `conversor_dados(value)`: `None` for a no-data value; otherwise the first
   * run of digits, commas and dots in `str(value)`, commas turned into dots,
   * parsed as a number; `None` when there is no run or it does not parse.
   * It never fails, and since the run cannot contain a sign the result is
   * never negative.
   */
  function ConversorDados(v: Scalar): (r: Option<real>)
    ensures IsNoData(v) ==> r.None?
    ensures r.Some? ==> r.value >= 0.0
    ensures r.Some? ==> HasDigit(ToText(v))
  {
    if IsNoData(v) then None
    else
      match FirstRun(ToText(v))
      case None => None
      case Some(run) =>
        var r := ParseDecimal(CommasToDots(run));
        if r.Some? then
          var s, i := ToText(v), RunStart(ToText(v));
          var k :| 0 <= k < |run| && IsDigit(CommasToDots(run)[k]);
          assert s[i + k] == run[k];
          r
        else r
  }
}

module CoercionFacts {
  import opened Wrappers
  import opened Text
  import opened Values
  import opened Coercion

  /** Once a value is known to carry data and its first run is known, the
      conversion is the parse of that run with commas made dots. */
  lemma {:induction false} ConvertRun(v: Scalar, run: string)
    requires !IsNoData(v) && FirstRun(ToText(v)) == Some(run)
    ensures ConversorDados(v) == ParseDecimal(CommasToDots(run))
  {
  }

  /** The search finds `run` in `lead + run + tail` when `lead` has no digit,
      comma or dot and `tail` does not continue the run. */
  lemma {:induction false} FirstRunIn(lead: string, run: string, tail: string)
    requires forall k :: 0 <= k < |lead| ==> !IsNumChar(lead[k])
    requires |run| > 0 && forall k :: 0 <= k < |run| ==> IsNumChar(run[k])
    requires tail == [] || !IsNumChar(tail[0])
    ensures FirstRun(lead + run + tail) == Some(run)
  {
    var s := lead + run + tail;
    assert forall k :: 0 <= k < |lead| ==> s[k] == lead[k];
    assert s[|lead|] == run[0];
    var i := RunStart(s);
    assert i == |lead|;
    var rest := s[i..];
    assert rest == run + tail;
    assert forall k :: 0 <= k < |run| ==> rest[k] == run[k];
    assert tail != [] ==> rest[|run|] == tail[0];
    assert RunLength(rest) == |run|;
  }

  /** A non-empty run of digits alone is left alone by the comma
      replacement and parses to the number it denotes. */
  lemma {:induction false} ParseDigits(t: string)
    requires |t| > 0 && AllDigits(t)
    ensures CommasToDots(t) == t
    ensures ParseDecimal(t) == Some(DigitsValue(t) as real)
  {
    assert forall k :: 0 <= k < |t| ==> t[k] != '.' && t[k] != ',';
    assert Before(t, '.') == t;
  }

  /** Reading the decimal text of a natural number gives the number back. */
  lemma {:induction false} ParseNatText(n: nat)
    ensures ParseDecimal(NatToText(n)) == Some(n as real)
  {
    ParseDigits(NatToText(n));
    NatToTextRoundTrip(n);
  }

  /**
   * A numeric value is converted to its magnitude: the sign of a negative
   * number is not part of the run, so `-5` becomes 5, and 0 is falsy.
   */
  lemma {:induction false} CoerceInteger(i: int)
    ensures ConversorDados(Int(i)) == if i == 0 then None else Some((if i < 0 then -i else i) as real)
  {
    if i != 0 {
      var m: nat := if i < 0 then -i else i;
      var digits := NatToText(m);
      if i < 0 {
        assert ToText(Int(i)) == "-" + digits + "";
        FirstRunIn("-", digits, "");
      } else {
        assert ToText(Int(i)) == "" + digits + "";
        FirstRunIn("", digits, "");
      }
      DigitsConvert(Int(i), m, digits);
    }
  }

  lemma {:induction false} DigitsConvert(v: Scalar, m: nat, digits: string)
    requires !IsNoData(v) && digits == NatToText(m)
    requires FirstRun(ToText(v)) == Some(digits)
    ensures ConversorDados(v) == Some(m as real)
  {
    ParseDigits(digits);
    NatToTextRoundTrip(m);
    ConvertRun(v, digits);
  }

  /** Text with a digit in it is never one of the no-data values. */
  lemma {:induction false} DigitMeansData(s: string, i: nat)
    requires i < |s| && IsDigit(s[i])
    ensures !IsNoData(Str(s))
  {
    assert forall k :: 0 <= k < |"N/D"| ==> !IsDigit("N/D"[k]);
    assert forall k :: 0 <= k < |"-"| ==> !IsDigit("-"[k]);
  }

  /** A run of digits, one separator and digits, with a digit on at least
      one side, parses to the exact value whole.frac. */
  lemma {:induction false} ParseOneSeparator(whole: string, sep: char, frac: string)
    requires sep in {',', '.'} && AllDigits(whole) && AllDigits(frac) && |whole| + |frac| > 0
    ensures ParseDecimal(CommasToDots(whole + [sep] + frac)) == Some(DecimalValue(whole, frac))
  {
    var t := CommasToDots(whole + [sep] + frac);
    assert t == whole + "." + frac;
    BeforeJoin(whole, '.', frac);
    assert t[|whole| + 1..] == frac;
  }

  /**
   * Text whose first number is a decimal, written with a comma as in
   * "25,3 °C" or with a dot as in "25.3" or ".5": digits `whole`, one
   * separator, digits `frac` (at least one digit in all), then anything that
   * is not a digit, comma or dot, is converted to the exact value whole.frac.
   */
  lemma {:induction false} CoerceDecimal(lead: string, whole: string, sep: char, frac: string, tail: string)
    requires forall k :: 0 <= k < |lead| ==> !IsNumChar(lead[k])
    requires sep in {',', '.'} && AllDigits(whole) && AllDigits(frac) && |whole| + |frac| > 0
    requires tail == [] || !IsNumChar(tail[0])
    ensures ConversorDados(Str(lead + whole + [sep] + frac + tail)) == Some(DecimalValue(whole, frac))
  {
    var run := whole + [sep] + frac;
    var s := lead + whole + [sep] + frac + tail;
    assert s == lead + run + tail;
    if whole != [] {
      assert s[|lead|] == whole[0];
      DigitMeansData(s, |lead|);
    } else {
      assert s[|lead| + 1] == frac[0];
      DigitMeansData(s, |lead| + 1);
    }
    FirstRunIn(lead, run, tail);
    ParseOneSeparator(whole, sep, frac);
    ConvertRun(Str(s), run);
  }

  /** Text whose first number is a plain integer, as in "78%". */
  lemma {:induction false} CoerceWholeNumber(lead: string, whole: string, tail: string)
    requires forall k :: 0 <= k < |lead| ==> !IsNumChar(lead[k])
    requires |whole| > 0 && AllDigits(whole)
    requires tail == [] || !IsNumChar(tail[0])
    ensures ConversorDados(Str(lead + whole + tail)) == Some(DigitsValue(whole) as real)
  {
    var s := lead + whole + tail;
    assert s[|lead|] == whole[0];
    DigitMeansData(s, |lead|);
    FirstRunIn(lead, whole, tail);
    ParseDigits(whole);
    ConvertRun(Str(s), whole);
  }

  /** A run with two separators, such as the thousands-grouped "1.234,5",
      does not parse, so the measurement becomes `None`. */
  lemma {:induction false} CoerceTwoSeparators(lead: string, a: string, sep1: char, b: string, sep2: char, c: string, tail: string)
    requires forall k :: 0 <= k < |lead| ==> !IsNumChar(lead[k])
    requires AllDigits(a) && AllDigits(b) && AllDigits(c)
    requires sep1 in {',', '.'} && sep2 in {',', '.'}
    requires tail == [] || !IsNumChar(tail[0])
    ensures ConversorDados(Str(lead + a + [sep1] + b + [sep2] + c + tail)) == None
  {
    var run := a + [sep1] + b + [sep2] + c;
    var s := lead + a + [sep1] + b + [sep2] + c + tail;
    assert s == lead + run + tail;
    SeparatorMeansData(s, |lead| + |a|);
    FirstRunIn(lead, run, tail);
    TwoDotsRejected(run, |a|, |a| + 1 + |b|);
    ConvertRun(Str(s), run);
    assert ParseDecimal(CommasToDots(run)) == None;
  }

  /** Text with a comma or a dot in it is never one of the no-data values. */
  lemma {:induction false} SeparatorMeansData(s: string, i: nat)
    requires i < |s| && s[i] in {',', '.'}
    ensures !IsNoData(Str(s))
  {
    assert forall k :: 0 <= k < |"N/D"| ==> "N/D"[k] !in {',', '.'};
    assert forall k :: 0 <= k < |"-"| ==> "-"[k] !in {',', '.'};
  }

  /** Two separators in a run leave two dots after the comma replacement. */
  lemma {:induction false} TwoDotsRejected(run: string, i: nat, j: nat)
    requires i < j < |run| && run[i] in {',', '.'} && run[j] in {',', '.'}
    ensures !AtMostOneDot(CommasToDots(run))
  {
    var t := CommasToDots(run);
    assert t[i] == '.' && t[j] == '.';
  }

  /** "25,3 °C" is 25.3. */
  lemma {:induction false} ExampleDecimalComma()
    ensures ConversorDados(Str("25,3 °C")) == Some(25.3)
  {
    assert "25,3 °C" == "" + "25" + [','] + "3" + " °C";
    CoerceDecimal("", "25", ',', "3", " °C");
    TemperatureValue();
  }

  /** "25.3" is 25.3 as well. */
  lemma {:induction false} ExampleDecimalDot()
    ensures ConversorDados(Str("25.3")) == Some(25.3)
  {
    assert "25.3" == "" + "25" + ['.'] + "3" + "";
    CoerceDecimal("", "25", '.', "3", "");
    TemperatureValue();
  }

  lemma {:induction false} TemperatureValue()
    ensures DecimalValue("25", "3") == 25.3
  {
    assert DigitsValue("25") == 25 by { assert "25"[..1] == "2"; }
    assert DigitsValue("3") == 3 by { assert "3"[..0] == ""; }
    assert Pow10(1) == 10;
  }

  /** ".5" is 0.5: the whole part may be empty. */
  lemma {:induction false} ExampleLeadingDot()
    ensures ConversorDados(Str(".5")) == Some(0.5)
  {
    LeadingDotSplit();
    CoerceDecimal("", "", '.', "5", "");
    HalfValue();
  }

  /** The pieces ".5" is read as; kept apart so the literal is split once. */
  lemma {:induction false} LeadingDotSplit()
    ensures ".5" == "" + "" + ['.'] + "5" + ""
  {
  }

  lemma {:induction false} HalfValue()
    ensures DecimalValue("", "5") == 0.5
  {
    assert DigitsValue("5") == 5 by { assert "5"[..0] == ""; }
    assert Pow10(1) == 10;
  }

  /** "78%" is 78. */
  lemma {:induction false} ExamplePercent()
    ensures ConversorDados(Str("78%")) == Some(78.0)
  {
    assert "78%" == "" + "78" + "%";
    CoerceWholeNumber("", "78", "%");
    assert DigitsValue("78") == 78 by { assert "78"[..1] == "7"; }
  }

  /** "-5" is 5: the sign is dropped. */
  lemma {:induction false} ExampleNegative()
    ensures ConversorDados(Str("-5")) == Some(5.0)
  {
    NegativeSplit();
    CoerceWholeNumber("-", "5", "");
  }

  /** The pieces "-5" is read as; kept apart so the literal is split once. */
  lemma {:induction false} NegativeSplit()
    ensures "-5" == "-" + "5" + ""
  {
  }

  /** "1.234,5" does not parse. */
  lemma {:induction false} ExampleGrouped()
    ensures ConversorDados(Str("1.234,5")) == None
  {
    assert "1.234,5" == "" + "1" + ['.'] + "234" + [','] + "5" + "";
    CoerceTwoSeparators("", "1", '.', "234", ',', "5", "");
  }
}
