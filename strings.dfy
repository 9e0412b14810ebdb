/**
 * The few operations of Go's `strings` package, and the decimal digits,
 * that the generator's string logic is built from.
 */
module Strings {

  /** `pat` occurs in `s` starting at index `i`. */
  predicate OccursAt(s: string, pat: string, i: int)
  {
    0 <= i && i + |pat| <= |s| && s[i..i + |pat|] == pat
  }

  /** strings.HasPrefix */
  predicate HasPrefix(s: string, prefix: string)
  {
    |prefix| <= |s| && s[..|prefix|] == prefix
  }

  /** strings.HasSuffix */
  predicate HasSuffix(s: string, suffix: string)
  {
    |suffix| <= |s| && s[|s| - |suffix|..] == suffix
  }

  /** The first occurrence of `pat` in `s` at or after `i`, or -1. */
  function IndexFrom(s: string, pat: string, i: nat): (r: int)
    requires i <= |s|
    ensures r == -1 || (i <= r <= |s| && OccursAt(s, pat, r))
    ensures forall j :: i <= j && (r == -1 || j < r) ==> !OccursAt(s, pat, j)
    decreases |s| - i
  {
    if OccursAt(s, pat, i) then i
    else if i == |s| then -1
    else IndexFrom(s, pat, i + 1)
  }

  /** strings.Index: the index of the first occurrence of `pat` in `s`, or -1 when there is none. */
  function Index(s: string, pat: string): (r: int)
    ensures r >= 0 ==> OccursAt(s, pat, r) && forall j :: 0 <= j < r ==> !OccursAt(s, pat, j)
    ensures r == -1 <==> forall j :: !OccursAt(s, pat, j)
    ensures r >= -1
  {
    IndexFrom(s, pat, 0)
  }

  /** strings.Contains, which Go defines as Index(s, pat) >= 0. */
  function Contains(s: string, pat: string): (b: bool)
    ensures b <==> exists j :: OccursAt(s, pat, j)
  {
    Index(s, pat) >= 0
  }

  predicate IsDigit(c: char)
  {
    '0' <= c <= '9'
  }

  predicate AllDigits(s: string)
  {
    forall k :: 0 <= k < |s| ==> IsDigit(s[k])
  }

  function DigitChar(n: nat): (c: char)
    requires n <= 9
    ensures IsDigit(c)
  {
    ('0' as int + n) as char
  }

  function DigitValue(c: char): (n: nat)
    requires IsDigit(c)
    ensures n <= 9 && DigitChar(n) == c
  {
    c as int - '0' as int
  }

  /** The number a string of decimal digits spells, most significant digit first. */
  function DecimalValue(s: string): nat
    requires AllDigits(s)
  {
    if s == [] then 0 else DecimalValue(s[..|s| - 1]) * 10 + DigitValue(s[|s| - 1])
  }

  /** Cancelling a common prefix. */
  lemma DropPrefix(p: string, x: string, y: string)
    requires p + x == p + y
    ensures x == y
  {
    assert x == (p + x)[|p|..];
    assert y == (p + y)[|p|..];
  }

  /** In a space-free word followed by a text that starts with a space, the first space ends the word. */
  lemma FirstSpace(a: string, x: string)
    requires ' ' !in a && |x| > 0 && x[0] == ' '
    ensures Index(a + x, " ") == |a|
  {
    assert (a + x)[|a|..|a| + 1] == " ";
    assert OccursAt(a + x, " ", |a|);
    forall j | 0 <= j < |a|
      ensures !OccursAt(a + x, " ", j)
    {
      assert (a + x)[j] == a[j];
      assert (a + x)[j..j + 1] == [a[j]];
    }
    var r := Index(a + x, " ");
    assert r >= 0;
    assert !(r < |a|);
    assert !(r > |a|);
  }

  /**
   * Two space-free words each followed by a text that starts with a space
   * can only spell the same string if the words and the texts are equal.
   */
  lemma SplitAtSpace(a: string, x: string, b: string, y: string)
    requires ' ' !in a && ' ' !in b
    requires |x| > 0 && x[0] == ' ' && |y| > 0 && y[0] == ' '
    requires a + x == b + y
    ensures a == b && x == y
  {
    FirstSpace(a, x);
    FirstSpace(b, y);
    assert a == (a + x)[..|a|];
    assert b == (b + y)[..|b|];
    assert x == (a + x)[|a|..];
    assert y == (b + y)[|b|..];
  }
}
