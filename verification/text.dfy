/**
 Character-level helpers on strings (`seq<char>`): the ASCII part of
 Python's `str.lower()` and `str.startswith`.
 */
module Text {

  /** True for the ASCII capitals 'A'..'Z'. */
  predicate IsUpper(c: char) {
    'A' <= c <= 'Z'
  }

  /** Lower-cases one character; every non-capital is kept as it is. */
  function LowerChar(c: char): (d: char)
    ensures !IsUpper(d)
    ensures IsUpper(c) ==> d as int == c as int + 32
    ensures !IsUpper(c) ==> d == c
  {
    if IsUpper(c) then (c as int - 'A' as int + 'a' as int) as char else c
  }

  /** A string without capitals: what `lower()` always returns. */
  predicate IsLowered(s: string) {
    forall k :: 0 <= k < |s| ==> !IsUpper(s[k])
  }

  /** `s.lower()`, restricted to ASCII: same length, each character lowered in place. */
  function Lower(s: string): (r: string)
    ensures |r| == |s|
    ensures forall k :: 0 <= k < |s| ==> r[k] == LowerChar(s[k])
    ensures IsLowered(r)
  {
    if |s| == 0 then "" else [LowerChar(s[0])] + Lower(s[1..])
  }

  /** Lower-casing a string that has no capitals changes nothing. */
  lemma LowerFixesLowered(s: string)
    requires IsLowered(s)
    ensures Lower(s) == s
  {
    assert forall k :: 0 <= k < |s| ==> Lower(s)[k] == s[k];
  }

  /** Lower-casing twice is lower-casing once. */
  lemma LowerIdempotent(s: string)
    ensures Lower(Lower(s)) == Lower(s)
  {
    LowerFixesLowered(Lower(s));
  }

  /** `s.startswith(prefix)`. */
  predicate StartsWith(s: string, prefix: string) {
    |prefix| <= |s| && s[..|prefix|] == prefix
  }
}
