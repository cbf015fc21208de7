/** Python's `int(s)` on a string, base 10: surrounding whitespace is ignored, one optional
    sign, then decimal digits in groups separated by single underscores (`"1_000"`); anything
    else raises `ValueError`. Leading zeros are accepted (`int("007") == 7`). */
module PythonInt {
  import opened Wrappers
  import opened Text

  /** Digits, with single underscores allowed between two digits: `digit ("_"? digit)*`. */
  predicate IsNumeral(s: string)
    decreases |s|
  {
    |s| >= 1 && IsAsciiDigit(s[0])
    && (|s| == 1 || (if s[1] == '_' then IsNumeral(s[2..]) else IsNumeral(s[1..])))
  }

  predicate IsNumeralChar(c: char) { IsAsciiDigit(c) || c == '_' }

  /** A numeral consists of digits and underscores only. */
  lemma {:induction false} NumeralChars(s: string)
    requires IsNumeral(s)
    ensures forall i :: 0 <= i < |s| ==> IsNumeralChar(s[i])
    decreases |s|
  {
    if |s| > 1 {
      var k := if s[1] == '_' then 2 else 1;
      NumeralChars(s[k..]);
      forall i | k <= i < |s| ensures IsNumeralChar(s[i]) {
        assert s[i] == s[k..][i - k];
      }
    }
  }

  /** The digits of a numeral, without its underscores. */
  function DropUnderscores(s: string): (r: string)
    requires forall i :: 0 <= i < |s| ==> IsNumeralChar(s[i])
    ensures forall i :: 0 <= i < |r| ==> IsAsciiDigit(r[i])
    ensures |r| <= |s|
  {
    if s == [] then []
    else
      assert IsNumeralChar(s[0]);
      var head := if s[0] == '_' then [] else [s[0]];
      assert forall i :: 0 <= i < |head| ==> IsAsciiDigit(head[i]);
      head + DropUnderscores(s[1..])
  }

  /** The value of a numeral. */
  function NumeralValue(s: string): nat
    requires IsNumeral(s)
  {
    NumeralChars(s);
    DigitsValue(DropUnderscores(s))
  }

  predicate IsSign(c: char) { c == '+' || c == '-' }

  /** `int()` on the string once its whitespace is stripped. */
  function ParseSigned(t: string): (r: Option<int>)
    ensures r.Some? <==> IsNumeral(t) || (|t| >= 2 && IsSign(t[0]) && IsNumeral(t[1..]))
  {
    if IsNumeral(t) then Some(NumeralValue(t))
    else if |t| >= 2 && IsSign(t[0]) && IsNumeral(t[1..]) then
      Some(if t[0] == '-' then -(NumeralValue(t[1..]) as int) else NumeralValue(t[1..]))
    else None
  }

  /** `int(s)`; `None` where Python raises `ValueError`. */
  function ParseInt(s: string): (r: Option<int>)
    ensures var t := PyStrip(s);
      r.Some? <==> IsNumeral(t) || (|t| >= 2 && IsSign(t[0]) && IsNumeral(t[1..]))
  {
    ParseSigned(PyStrip(s))
  }

  lemma {:induction false} DropUnderscoresOfDigits(s: string)
    requires forall i :: 0 <= i < |s| ==> IsAsciiDigit(s[i])
    ensures DropUnderscores(s) == s
  {
    if s != [] {
      DropUnderscoresOfDigits(s[1..]);
    }
  }

  lemma {:induction false} DigitsAreNumeral(s: string)
    requires |s| >= 1 && forall i :: 0 <= i < |s| ==> IsAsciiDigit(s[i])
    ensures IsNumeral(s)
  {
    if |s| > 1 {
      DigitsAreNumeral(s[1..]);
    }
  }

  /** A string with no whitespace at either end strips to itself. */
  lemma StripOfUnpadded(s: string)
    requires |s| >= 1 && !IsPyWhitespace(s[0]) && !IsPyWhitespace(s[|s| - 1])
    ensures PyStrip(s) == s
  {
    assert StripLeft(s, IsPyWhitespace) == s;
  }

  /** Without whitespace at either end, `int()` reads the string as it is. */
  lemma ParseIntOfUnpadded(s: string)
    requires |s| >= 1 && !IsPyWhitespace(s[0]) && !IsPyWhitespace(s[|s| - 1])
    ensures ParseInt(s) == ParseSigned(s)
  {
    StripOfUnpadded(s);
  }

  /** A minus sign before a numeral negates it. */
  lemma ParseIntOfMinusNumeral(s: string)
    requires |s| >= 2 && s[0] == '-' && IsNumeral(s[1..]) && !IsPyWhitespace(s[|s| - 1])
    ensures ParseInt(s) == Some(-(NumeralValue(s[1..]) as int))
  {
    ParseIntOfUnpadded(s);
    assert !IsNumeral(s);
  }

  /** A string of digits is a numeral with the digits' value. */
  lemma NumeralOfDigits(d: string)
    requires |d| >= 1 && forall i :: 0 <= i < |d| ==> IsAsciiDigit(d[i])
    ensures IsNumeral(d) && NumeralValue(d) == DigitsValue(d)
    ensures !IsPyWhitespace(d[0]) && !IsPyWhitespace(d[|d| - 1])
  {
    DropUnderscoresOfDigits(d);
    DigitsAreNumeral(d);
    assert IsAsciiDigit(d[0]) && IsAsciiDigit(d[|d| - 1]);
  }

  lemma ParseIntOfNatToString(n: nat)
    ensures ParseInt(NatToString(n)) == Some(n)
  {
    var d := NatToString(n);
    NumeralOfDigits(d);
    DigitsValueOfNatToString(n);
    ParseIntOfUnpadded(d);
  }

  lemma ParseIntOfNegative(s: string, n: nat)
    requires |s| >= 2 && s[0] == '-' && s[1..] == NatToString(n)
    ensures ParseInt(s) == Some(-(n as int))
  {
    var d := s[1..];
    NumeralOfDigits(d);
    DigitsValueOfNatToString(n);
    assert s[|s| - 1] == d[|d| - 1];
    ParseIntOfMinusNumeral(s);
  }

  /** Python reads back the decimal rendering of every integer. */
  lemma ParseIntOfIntToString(n: int)
    ensures ParseInt(IntToString(n)) == Some(n)
  {
    var s := IntToString(n);
    if n < 0 {
      assert s[0] == '-' && s[1..] == NatToString(-n);
      ParseIntOfNegative(s, -n);
    } else {
      ParseIntOfNatToString(n);
    }
  }

  /** Underscores between digits are accepted, doubled ones are not. */
  lemma UnderscoreExamples()
    ensures IsNumeral("1_000")
    ensures !IsNumeral("1__0") && !IsNumeral("_1") && !IsNumeral("1_")
  {
  }
}
