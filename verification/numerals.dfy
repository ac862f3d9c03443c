/** Decimal text for integers: the parsing done by Python's `int(text)` on
    the numeric part of "720p" / "128kbps", and the rendering done by
    `str(n)` on an itag. */
module Numerals {
  import opened Options

  predicate IsDigit(c: char) {
    '0' <= c <= '9'
  }

  /** A non-empty run of ASCII digits. */
  predicate IsDigitRun(s: string) {
    |s| > 0 && forall i :: 0 <= i < |s| ==> IsDigit(s[i])
  }

  /** The text `int()` accepts here: an optional sign and a digit run. */
  predicate IsIntegerText(s: string) {
    || IsDigitRun(s)
    || (|s| > 0 && (s[0] == '-' || s[0] == '+') && IsDigitRun(s[1..]))
  }

  function DigitValue(c: char): (d: nat)
    requires IsDigit(c)
    ensures d < 10
  {
    (c as int - '0' as int) as nat
  }

  function DigitChar(d: nat): (c: char)
    requires d < 10
    ensures IsDigit(c) && DigitValue(c) == d
  {
    ('0' as int + d) as char
  }

  /** The number a digit run denotes, most significant digit first. */
  function DigitsValue(s: string): nat
    requires IsDigitRun(s)
    decreases |s|
  {
    if |s| == 1 then DigitValue(s[0])
    else DigitsValue(s[..|s| - 1]) * 10 + DigitValue(s[|s| - 1])
  }

  /** Python `int(s)` restricted to ASCII: `None` stands for the
      `ValueError` it raises. */
  function ParseInt(s: string): (r: Option<int>)
    ensures r.Some? <==> IsIntegerText(s)
  {
    if IsDigitRun(s) then Some(DigitsValue(s) as int)
    else if |s| > 0 && s[0] == '-' && IsDigitRun(s[1..]) then Some(-(DigitsValue(s[1..]) as int))
    else if |s| > 0 && s[0] == '+' && IsDigitRun(s[1..]) then Some(DigitsValue(s[1..]))
    else None
  }

  /** Shortest decimal digits of a natural number. */
  function Digits(n: nat): (s: string)
    ensures IsDigitRun(s)
    ensures |s| > 1 ==> s[0] != '0'
    decreases n
  {
    if n < 10 then [DigitChar(n)] else Digits(n / 10) + [DigitChar(n % 10)]
  }

  /** Python `str(n)` for an integer. */
  function DecimalText(n: int): (s: string)
    ensures |s| > 0
  {
    if n < 0 then "-" + Digits(-n) else Digits(n)
  }

  lemma {:induction false} DigitsRoundTrip(n: nat)
    ensures DigitsValue(Digits(n)) == n
    decreases n
  {
    if n >= 10 {
      var s := Digits(n);
      DigitsRoundTrip(n / 10);
      assert s[..|s| - 1] == Digits(n / 10);
    }
  }

  /** Parsing what `str` renders gives the number back. */
  lemma DecimalRoundTrip(n: int)
    ensures ParseInt(DecimalText(n)) == Some(n)
  {
    if n < 0 {
      DigitsRoundTrip(-n);
      assert DecimalText(n)[1..] == Digits(-n);
    } else {
      DigitsRoundTrip(n);
    }
  }

  /** Distinct integers render as distinct text, so comparing the rendered
      itags is the same as comparing the itags. */
  lemma DecimalTextInjective(m: int, n: int)
    ensures DecimalText(m) == DecimalText(n) <==> m == n
  {
    DecimalRoundTrip(m);
    DecimalRoundTrip(n);
  }

  /** A leading zero does not change the value of a digit run. */
  lemma {:induction false} LeadingZeroValue(t: string)
    requires IsDigitRun(t)
    ensures IsDigitRun("0" + t) && DigitsValue("0" + t) == DigitsValue(t)
    decreases |t|
  {
    var z := "0" + t;
    assert forall i :: 0 < i < |z| ==> z[i] == t[i - 1];
    if |t| > 1 {
      var t' := t[..|t| - 1];
      LeadingZeroValue(t');
      assert z[..|z| - 1] == "0" + t';
    } else {
      assert z[..|z| - 1] == "0";
    }
  }

  /** `int()` ignores leading zeros and a '+' sign: "0720" and "+720" are
      read as 720. */
  lemma ParseIntLeadingZeroAndPlus(t: string)
    requires IsDigitRun(t)
    ensures ParseInt("0" + t) == ParseInt(t)
    ensures ParseInt("+" + t) == ParseInt(t)
    ensures ParseInt("-" + t) == Some(-(DigitsValue(t) as int))
  {
    LeadingZeroValue(t);
    assert ("+" + t)[1..] == t;
    assert ("-" + t)[1..] == t;
  }
}
