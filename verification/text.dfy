/** The string trimming of Python's `str` that the model relies on:
    `lstrip(chars)`, `rstrip(chars)` and `strip(chars)`, where `chars` is
    the set of characters to remove. */
module Text {

  /** Every character of s belongs to chars. */
  predicate AllIn(s: string, chars: set<char>) {
    forall i :: 0 <= i < |s| ==> s[i] in chars
  }

  /** `s.lstrip(chars)`: s without its longest prefix made of chars. */
  function LStrip(s: string, chars: set<char>): (r: string)
    ensures |r| <= |s| && r == s[|s| - |r|..]
    ensures AllIn(s[..|s| - |r|], chars)
    ensures r == [] || r[0] !in chars
  {
    if s != [] && s[0] in chars then LStrip(s[1..], chars) else s
  }

  /** `s.rstrip(chars)`: s without its longest suffix made of chars. */
  function RStrip(s: string, chars: set<char>): (r: string)
    ensures |r| <= |s| && r == s[..|r|]
    ensures AllIn(s[|r|..], chars)
    ensures r == [] || r[|r| - 1] !in chars
  {
    if s != [] && s[|s| - 1] in chars then RStrip(s[..|s| - 1], chars) else s
  }

  /** `s.strip(chars)`: both ends trimmed. */
  function Strip(s: string, chars: set<char>): (r: string)
    ensures |r| <= |s|
    ensures r == [] || (r[0] !in chars && r[|r| - 1] !in chars)
  {
    LStrip(RStrip(s, chars), chars)
  }

  /** Trimming from the right stops exactly at the last character outside chars. */
  lemma {:induction false} RStripExact(x: string, b: string, chars: set<char>)
    requires AllIn(b, chars)
    requires x == [] || x[|x| - 1] !in chars
    ensures RStrip(x + b, chars) == x
  {
    if b == [] {
      assert x + b == x;
    } else {
      var b' := b[..|b| - 1];
      assert (x + b)[..|x + b| - 1] == x + b';
      RStripExact(x, b', chars);
    }
  }

  /** Trimming from the left stops exactly at the first character outside chars. */
  lemma {:induction false} LStripExact(a: string, x: string, chars: set<char>)
    requires AllIn(a, chars)
    requires x == [] || x[0] !in chars
    ensures LStrip(a + x, chars) == x
  {
    if a == [] {
      assert a + x == x;
    } else {
      assert (a + x)[1..] == a[1..] + x;
      LStripExact(a[1..], x, chars);
    }
  }

  /** `strip` recovers the text between two runs of removable characters,
      provided the text itself neither begins nor ends with one. */
  lemma StripExact(a: string, x: string, b: string, chars: set<char>)
    requires AllIn(a, chars) && AllIn(b, chars)
    requires x == [] || (x[0] !in chars && x[|x| - 1] !in chars)
    ensures Strip(a + x + b, chars) == x
  {
    if x == [] {
      assert a + x + b == [] + (a + b);
      RStripExact([], a + b, chars);
    } else {
      assert a + x + b == (a + x) + b;
      RStripExact(a + x, b, chars);
      LStripExact(a, x, chars);
    }
  }
}
