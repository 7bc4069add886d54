/** The contents of a marker file: the stored length written as a decimal
    number and a newline, read back with `int(text.strip())`. */
module Marker {
  import opened Outcomes
  import opened Text

  /** The characters Python's argument-less `str.strip()` removes. */
  const Whitespace: set<char> := {
    '\t', '\n', '\U{0B}', '\U{0C}', '\r', '\U{1C}', '\U{1D}', '\U{1E}', '\U{1F}', ' ',
    '\U{85}', '\U{A0}', '\U{1680}',
    '\U{2000}', '\U{2001}', '\U{2002}', '\U{2003}', '\U{2004}', '\U{2005}',
    '\U{2006}', '\U{2007}', '\U{2008}', '\U{2009}', '\U{200A}',
    '\U{2028}', '\U{2029}', '\U{202F}', '\U{205F}', '\U{3000}'
  }

  predicate IsDigit(c: char) {
    '0' <= c <= '9'
  }

  /** A non-empty run of ASCII decimal digits. */
  predicate IsDecimal(s: string) {
    |s| > 0 && forall i :: 0 <= i < |s| ==> IsDigit(s[i])
  }

  function DigitValue(c: char): (d: nat)
    requires IsDigit(c)
    ensures d < 10
  {
    c as int - '0' as int
  }

  function DigitChar(d: nat): (c: char)
    requires d < 10
    ensures IsDigit(c) && DigitValue(c) == d
  {
    ('0' as int + d) as char
  }

  /** The number a string of digits denotes, most significant digit first. */
  function DecimalValue(s: string): nat
    requires forall i :: 0 <= i < |s| ==> IsDigit(s[i])
  {
    if s == [] then 0 else 10 * DecimalValue(s[..|s| - 1]) + DigitValue(s[|s| - 1])
  }

  /** `str(n)`: the shortest decimal numeral of n. */
  function Decimal(n: nat): (s: string)
    ensures IsDecimal(s)
    ensures DecimalValue(s) == n
    ensures s[0] != '0' || s == "0"
  {
    if n < 10 then [DigitChar(n)]
    else
      var s := Decimal(n / 10) + [DigitChar(n % 10)];
      assert s[..|s| - 1] == Decimal(n / 10);
      s
  }

  /** What `check` writes into a marker for a stored length. */
  function FormatLength(n: nat): string {
    Decimal(n) + "\n"
  }

  /** `int(text.strip())`, restricted to plain decimal digits: the stored
      length, or None where Python raises `ValueError`. */
  function ParseLength(text: string): Option<nat> {
    var t := Strip(text, Whitespace);
    if IsDecimal(t) then Some(DecimalValue(t)) else None
  }

  /** Digits are never whitespace, so a numeral survives `strip` intact. */
  lemma DecimalIsNotSpace(s: string)
    requires IsDecimal(s)
    ensures s[0] !in Whitespace && s[|s| - 1] !in Whitespace
  {
  }

  /** The markers written for lengths 6, 7 and 11. */
  lemma FormatExamples()
    ensures FormatLength(6) == "6\n" && FormatLength(7) == "7\n" && FormatLength(11) == "11\n"
  {
    assert Decimal(1) == "1";
    assert Decimal(11) == Decimal(1) + [DigitChar(1)];
  }

  /** Surrounding whitespace does not change the length a numeral denotes,
      leading zeros included. */
  lemma ParseToleratesSpace(before: string, s: string, after: string)
    requires AllIn(before, Whitespace) && AllIn(after, Whitespace)
    requires IsDecimal(s)
    ensures ParseLength(before + s + after) == Some(DecimalValue(s))
  {
    DecimalIsNotSpace(s);
    StripExact(before, s, after, Whitespace);
  }

  /** Reading back what `check` writes yields the length it wrote. */
  lemma ParseFormat(n: nat)
    ensures ParseLength(FormatLength(n)) == Some(n)
  {
    assert AllIn("\n", Whitespace);
    assert [] + Decimal(n) + "\n" == FormatLength(n);
    ParseToleratesSpace([], Decimal(n), "\n");
  }

  /** A numeral without superfluous leading zeros denotes a positive number
      unless it is "0". */
  lemma {:induction false} LeadingDigitPositive(s: string)
    requires IsDecimal(s) && s[0] != '0'
    ensures DecimalValue(s) > 0
  {
    if |s| > 1 {
      var s' := s[..|s| - 1];
      assert s'[0] == s[0];
      LeadingDigitPositive(s');
    }
  }

  /** Appending a digit to a positive number's numeral. */
  lemma DecimalStep(v: nat, c: char)
    requires v > 0 && IsDigit(c)
    ensures Decimal(10 * v + DigitValue(c)) == Decimal(v) + [c]
  {
    var n := 10 * v + DigitValue(c);
    assert n / 10 == v && n % 10 == DigitValue(c);
    assert DigitChar(DigitValue(c)) == c;
  }

  /** `Decimal` is the only numeral without superfluous leading zeros:
      formatting the value of such a numeral gives the numeral back. */
  lemma {:induction false} DecimalCanonical(s: string)
    requires IsDecimal(s) && (s[0] != '0' || s == "0")
    ensures Decimal(DecimalValue(s)) == s
  {
    if |s| == 1 {
      assert DigitChar(DigitValue(s[0])) == s[0];
    } else {
      var s' := s[..|s| - 1];
      assert s'[0] == s[0];
      LeadingDigitPositive(s');
      DecimalCanonical(s');
      DecimalStep(DecimalValue(s'), s[|s| - 1]);
      assert s == s' + [s[|s| - 1]];
    }
  }

  /** Two lengths are stored alike exactly when they are equal. */
  lemma FormatInjective(m: nat, n: nat)
    ensures FormatLength(m) == FormatLength(n) <==> m == n
  {
    if FormatLength(m) == FormatLength(n) {
      ParseFormat(m);
      ParseFormat(n);
    }
  }
}
