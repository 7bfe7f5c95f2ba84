/**
 * The string operations the font extractor relies on: ASCII lower-casing
 * (standing in for `str.lower`), substring search (Python's `in` on strings),
 * single-character replacement (`str.replace` with one-character arguments)
 * and decimal formatting of counts (`f"{n}"`).
 */
module Text {

  /** `c` lower-cased; only the ASCII letters A-Z change. */
  function LowerChar(c: char): char {
    if 'A' <= c <= 'Z' then (c as int + 32) as char else c
  }

  /** `s.lower()`, restricted to ASCII case folding. */
  function Lower(s: string): (r: string)
    ensures |r| == |s|
    ensures forall i :: 0 <= i < |s| ==> r[i] == LowerChar(s[i])
  {
    seq(|s|, i requires 0 <= i < |s| => LowerChar(s[i]))
  }

  /** `needle` occurs in `hay` starting at position `k`. */
  ghost predicate OccursAt(hay: string, needle: string, k: int) {
    0 <= k && k + |needle| <= |hay| && hay[k..k + |needle|] == needle
  }

  /** `needle in hay`: a left-to-right search of the positions of `hay`. */
  predicate Contains(hay: string, needle: string)
    decreases |hay|
  {
    needle <= hay || (|hay| > 0 && Contains(hay[1..], needle))
  }

  /** The search finds exactly the needles that occur at some position. */
  lemma {:induction false} ContainsOccurs(hay: string, needle: string)
    ensures Contains(hay, needle) <==> exists k :: OccursAt(hay, needle, k)
    decreases |hay|
  {
    if needle <= hay {
      assert OccursAt(hay, needle, 0);
    } else if |hay| == 0 {
      assert forall k :: !OccursAt(hay, needle, k);
    } else {
      ContainsOccurs(hay[1..], needle);
      if Contains(hay[1..], needle) {
        var k :| OccursAt(hay[1..], needle, k);
        assert hay[1..][k..k + |needle|] == hay[k + 1..k + 1 + |needle|];
        assert OccursAt(hay, needle, k + 1);
      } else {
        forall k | OccursAt(hay, needle, k)
          ensures false
        {
          if k > 0 {
            assert hay[1..][k - 1..k - 1 + |needle|] == hay[k..k + |needle|];
            assert OccursAt(hay[1..], needle, k - 1);
          }
        }
      }
    }
  }

  /** `s.replace(from, to)` for one-character `from` and `to`: every `from` becomes `to`. */
  function ReplaceChar(s: string, from: char, to: char): (r: string)
    ensures |r| == |s|
    ensures forall i :: 0 <= i < |s| ==> r[i] == (if s[i] == from then to else s[i])
  {
    if s == [] then []
    else [if s[0] == from then to else s[0]] + ReplaceChar(s[1..], from, to)
  }

  predicate IsDigit(c: char) {
    '0' <= c <= '9'
  }

  predicate AllDigits(s: string) {
    forall i :: 0 <= i < |s| ==> IsDigit(s[i])
  }

  function DigitChar(d: nat): (c: char)
    requires d < 10
    ensures IsDigit(c)
  {
    (d + '0' as int) as char
  }

  function DigitValue(c: char): nat
    requires IsDigit(c)
  {
    c as int - '0' as int
  }

  /** `f"{n}"`: the decimal numeral of `n`, without leading zeros. */
  function NatToString(n: nat): (s: string)
    ensures |s| > 0 && AllDigits(s)
    ensures (s[0] == '0') <==> (n == 0)
    decreases n
  {
    if n < 10 then [DigitChar(n)] else NatToString(n / 10) + [DigitChar(n % 10)]
  }

  /** The number a string of decimal digits denotes. */
  function DecimalValue(s: string): nat
    requires AllDigits(s)
  {
    if s == [] then 0 else DecimalValue(s[..|s| - 1]) * 10 + DigitValue(s[|s| - 1])
  }

  /** Reading a formatted count back gives the count. */
  lemma {:induction false} DecimalRoundTrip(n: nat)
    ensures DecimalValue(NatToString(n)) == n
    decreases n
  {
    var s := NatToString(n);
    if n >= 10 {
      DecimalRoundTrip(n / 10);
      assert s[..|s| - 1] == NatToString(n / 10);
    }
  }

  /** Different counts format differently. */
  lemma NatToStringInjective(m: nat, n: nat)
    requires NatToString(m) == NatToString(n)
    ensures m == n
  {
    DecimalRoundTrip(m);
    DecimalRoundTrip(n);
  }

  /**
   * A numeral followed by text that starts with a non-digit can be split in
   * one way only.
   */
  lemma DigitsPrefixUnique(d1: string, x1: string, d2: string, x2: string)
    requires AllDigits(d1) && AllDigits(d2)
    requires |x1| > 0 && !IsDigit(x1[0]) && |x2| > 0 && !IsDigit(x2[0])
    requires d1 + x1 == d2 + x2
    ensures d1 == d2 && x1 == x2
  {
    assert d1 == (d1 + x1)[..|d1|];
    assert d2 == (d2 + x2)[..|d2|];
    assert x1 == (d1 + x1)[|d1|..];
    assert x2 == (d2 + x2)[|d2|..];
  }

  /** The same split, after a common prefix. */
  lemma NumeralAfterPrefix(p: string, d1: string, x1: string, d2: string, x2: string)
    requires AllDigits(d1) && AllDigits(d2)
    requires |x1| > 0 && !IsDigit(x1[0]) && |x2| > 0 && !IsDigit(x2[0])
    requires p + d1 + x1 == p + d2 + x2
    ensures d1 == d2 && x1 == x2
  {
    assert d1 + x1 == (p + d1 + x1)[|p|..];
    assert d2 + x2 == (p + d2 + x2)[|p|..];
    DigitsPrefixUnique(d1, x1, d2, x2);
  }

  /** Equal strings with a common prefix agree after it. */
  lemma StripPrefix(p: string, x: string, y: string)
    requires p + x == p + y
    ensures x == y
  {
    assert x == (p + x)[|p|..];
    assert y == (p + y)[|p|..];
  }

  /** Regrouping a concatenation of four strings. */
  lemma RegroupLast(a: string, b: string, c: string, d: string)
    ensures a + b + c + d == a + b + (c + d)
  {
  }
}
