/** The string operations the handlers use: ASCII lower-casing in place of
    `toLowerCase`, `includes`, `trim`, and the decimal form of a number. */
module Strings {

  /** Lower-cases one ASCII letter and leaves every other character alone. */
  function LowerChar(c: char): char {
    if 'A' <= c <= 'Z' then ((c as int) - ('A' as int) + ('a' as int)) as char else c
  }

  predicate IsUpper(c: char) {
    'A' <= c <= 'Z'
  }

  /** `s.toLowerCase()`, restricted to ASCII: no upper-case letter is left. */
  function Lower(s: string): (r: string)
    ensures |r| == |s|
    ensures forall i :: 0 <= i < |s| ==> r[i] == LowerChar(s[i])
    ensures forall i :: 0 <= i < |r| ==> !IsUpper(r[i])
  {
    seq(|s|, i requires 0 <= i < |s| => LowerChar(s[i]))
  }

  /** Two characters are equal, or are the same letter in the other case. */
  predicate SameLetterIgnoringCase(a: char, b: char) {
    a == b
    || (IsUpper(a) && (b as int) == (a as int) + 32)
    || (IsUpper(b) && (a as int) == (b as int) + 32)
  }

  /** The two strings differ at most in the case of their ASCII letters. */
  predicate EqualIgnoringAsciiCase(a: string, b: string) {
    |a| == |b| && forall i :: 0 <= i < |a| ==> SameLetterIgnoringCase(a[i], b[i])
  }

  /** Lower-casing is what makes the search case-insensitive: two strings
      lower-case to the same string exactly when they differ only in the case
      of their letters. */
  lemma LowerEqualIff(a: string, b: string)
    ensures Lower(a) == Lower(b) <==> EqualIgnoringAsciiCase(a, b)
  {
    if Lower(a) == Lower(b) {
      forall i | 0 <= i < |a| ensures SameLetterIgnoringCase(a[i], b[i]) {
        assert Lower(a)[i] == Lower(b)[i];
      }
    }
    if EqualIgnoringAsciiCase(a, b) {
      forall i | 0 <= i < |a| ensures Lower(a)[i] == Lower(b)[i] {
        assert SameLetterIgnoringCase(a[i], b[i]);
      }
    }
  }

  /** Lower-casing twice changes nothing more. */
  lemma LowerIdempotent(s: string)
    ensures Lower(Lower(s)) == Lower(s)
  {
  }

  predicate StartsWith(s: string, prefix: string) {
    |prefix| <= |s| && s[..|prefix|] == prefix
  }

  /** `hay.includes(needle)`, computed by trying each start position in turn. */
  predicate Includes(hay: string, needle: string)
    decreases |hay|
  {
    StartsWith(hay, needle) || (hay != [] && Includes(hay[1..], needle))
  }

  /** `needle` occurs in `hay` starting at index `i`. */
  ghost predicate OccursAt(hay: string, needle: string, i: int) {
    0 <= i && i + |needle| <= |hay| && hay[i..i + |needle|] == needle
  }

  /** `Includes` finds exactly the substrings: it holds if and only if the
      needle occurs at some position of the haystack. */
  lemma {:induction false} IncludesIff(hay: string, needle: string)
    ensures Includes(hay, needle) <==> exists i :: OccursAt(hay, needle, i)
    decreases |hay|
  {
    if StartsWith(hay, needle) {
      assert OccursAt(hay, needle, 0);
    } else if hay == [] {
      assert forall i :: !OccursAt(hay, needle, i);
    } else {
      IncludesIff(hay[1..], needle);
      if Includes(hay[1..], needle) {
        var i :| OccursAt(hay[1..], needle, i);
        assert hay[1..][i..i + |needle|] == hay[i + 1..i + 1 + |needle|];
        assert OccursAt(hay, needle, i + 1);
      }
      if i :| OccursAt(hay, needle, i) {
        assert i != 0;
        assert hay[1..][i - 1..i - 1 + |needle|] == hay[i..i + |needle|];
        assert OccursAt(hay[1..], needle, i - 1);
      }
    }
  }

  /** The characters `String.prototype.trim` removes: the ECMAScript
      WhiteSpace and LineTerminator code points. */
  predicate IsJsWhitespace(c: char) {
    var n := c as int;
    n == 0x09 || n == 0x0A || n == 0x0B || n == 0x0C || n == 0x0D || n == 0x20 ||
    n == 0xA0 || n == 0x1680 || (0x2000 <= n <= 0x200A) || n == 0x2028 ||
    n == 0x2029 || n == 0x202F || n == 0x205F || n == 0x3000 || n == 0xFEFF
  }

  /** Every character of `s` is white space (vacuously so for `""`). */
  predicate Blank(s: string) {
    forall i :: 0 <= i < |s| ==> IsJsWhitespace(s[i])
  }

  function TrimStart(s: string): (r: string)
    ensures r == [] <==> Blank(s)
    ensures r != [] ==> !IsJsWhitespace(r[0])
    ensures |r| <= |s| && r == s[|s| - |r|..]
  {
    if s != [] && IsJsWhitespace(s[0]) then TrimStart(s[1..]) else s
  }

  function TrimEnd(s: string): (r: string)
    ensures r == [] <==> Blank(s)
    ensures |r| <= |s| && r == s[..|r|]
  {
    if s != [] && IsJsWhitespace(s[|s| - 1]) then TrimEnd(s[..|s| - 1]) else s
  }

  /** `s.trim()`; it is empty exactly when `s` is blank. */
  function Trim(s: string): (r: string)
    ensures |r| == 0 <==> Blank(s)
  {
    var t := TrimStart(s);
    assert t != [] ==> !Blank(t);
    TrimEnd(t)
  }

  function Digit(d: nat): (c: char)
    requires d < 10
    ensures '0' <= c <= '9'
  {
    ((d as int) + ('0' as int)) as char
  }

  /** The number a run of decimal digits denotes, read left to right. */
  function DigitsValue(s: string): nat {
    if s == [] then 0
    else
      var d := (s[|s| - 1] as int) - ('0' as int);
      DigitsValue(s[..|s| - 1]) * 10 + (if 0 <= d < 10 then d else 0)
  }

  /** `n.toString()` for a non-negative integer: a non-empty run of digits
      with no leading zero that denotes `n`. */
  function DecimalString(n: nat): (r: string)
    ensures 1 <= |r|
    ensures forall i :: 0 <= i < |r| ==> '0' <= r[i] <= '9'
    ensures r[0] == '0' ==> n == 0
    ensures DigitsValue(r) == n
    decreases n
  {
    if n < 10 then
      assert [Digit(n)][..0] == [];
      [Digit(n)]
    else
      var front := DecimalString(n / 10);
      assert (front + [Digit(n % 10)])[..|front|] == front;
      front + [Digit(n % 10)]
  }
}
