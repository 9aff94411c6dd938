/**
 * The java.lang.String operations the workflow relies on: `trim`, `toUpperCase`,
 * `toLowerCase` and `equalsIgnoreCase`. Case mapping is restricted to ASCII letters.
 */
module Text {

  /** `String.trim` removes every leading and trailing character at or below U+0020. */
  predicate IsBlank(c: char) {
    c <= ' '
  }

  /** Number of blank characters at the start of `s`. */
  function LeadingBlanks(s: string): (n: nat)
    ensures n <= |s|
    ensures forall k :: 0 <= k < n ==> IsBlank(s[k])
    ensures n < |s| ==> !IsBlank(s[n])
  {
    if |s| == 0 || !IsBlank(s[0]) then 0 else 1 + LeadingBlanks(s[1..])
  }

  /** Number of blank characters at the end of `s`. */
  function TrailingBlanks(s: string): (n: nat)
    ensures n <= |s|
    ensures forall k :: |s| - n <= k < |s| ==> IsBlank(s[k])
    ensures n < |s| ==> !IsBlank(s[|s| - 1 - n])
  {
    if |s| == 0 || !IsBlank(s[|s| - 1]) then 0 else 1 + TrailingBlanks(s[..|s| - 1])
  }

  /**
   * `String.trim`: `s` without its longest blank prefix and its longest blank suffix.
   * The result is the part of `s` that starts at its first non-blank character and
   * ends at its last one; it is empty exactly when `s` is all blanks.
   */
  function Trim(s: string): (r: string)
    ensures LeadingBlanks(s) + |r| <= |s|
    ensures forall k :: 0 <= k < |r| ==> r[k] == s[LeadingBlanks(s) + k]
    ensures forall k :: 0 <= k < LeadingBlanks(s) ==> IsBlank(s[k])
    ensures forall k :: LeadingBlanks(s) + |r| <= k < |s| ==> IsBlank(s[k])
    ensures r != [] ==> !IsBlank(r[0]) && !IsBlank(r[|r| - 1])
    ensures r == [] <==> forall k :: 0 <= k < |s| ==> IsBlank(s[k])
  {
    var t := s[LeadingBlanks(s)..];
    t[..|t| - TrailingBlanks(t)]
  }

  predicate IsAsciiUpper(c: char) { 'A' <= c <= 'Z' }

  predicate IsAsciiLower(c: char) { 'a' <= c <= 'z' }

  function ToUpperChar(c: char): char {
    if IsAsciiLower(c) then (c as int - 32) as char else c
  }

  function ToLowerChar(c: char): char {
    if IsAsciiUpper(c) then (c as int + 32) as char else c
  }

  /**
   * One position of `String.regionMatches(true, ...)`: the characters are equal, or
   * their upper-case forms are, or the lower-case forms of those upper-case forms are.
   * For ASCII this is equality of the upper-case forms, and of the lower-case forms.
   */
  predicate CharEqualsIgnoreCase(a: char, b: char): (same: bool)
    ensures same <==> ToUpperChar(a) == ToUpperChar(b)
    ensures same <==> ToLowerChar(a) == ToLowerChar(b)
  {
    a == b
    || ToUpperChar(a) == ToUpperChar(b)
    || ToLowerChar(ToUpperChar(a)) == ToLowerChar(ToUpperChar(b))
  }

  /**
   * `a.equalsIgnoreCase(b)` for a non-null `b`: equal lengths and, position by
   * position, equal upper-case forms. Equal strings always pass.
   */
  predicate EqualsIgnoreCase(a: string, b: string): (same: bool)
    ensures same ==> |a| == |b|
    ensures a == b ==> same
    ensures same <==> |a| == |b| && forall k :: 0 <= k < |a| ==> ToUpperChar(a[k]) == ToUpperChar(b[k])
  {
    |a| == |b| && forall k :: 0 <= k < |a| ==> CharEqualsIgnoreCase(a[k], b[k])
  }

  /** `String.toUpperCase`: the same string up to case, with no lower-case letter left. */
  function ToUpperCase(s: string): (r: string)
    ensures EqualsIgnoreCase(r, s)
    ensures forall k :: 0 <= k < |r| ==> !IsAsciiLower(r[k])
  {
    seq(|s|, k requires 0 <= k < |s| => ToUpperChar(s[k]))
  }

  /** `String.toLowerCase`: the same string up to case, with no upper-case letter left. */
  function ToLowerCase(s: string): (r: string)
    ensures EqualsIgnoreCase(r, s)
    ensures forall k :: 0 <= k < |r| ==> !IsAsciiUpper(r[k])
  {
    seq(|s|, k requires 0 <= k < |s| => ToLowerChar(s[k]))
  }

  /** `equalsIgnoreCase` is equality of the upper-case forms, and of the lower-case forms. */
  lemma EqualsIgnoreCaseIff(a: string, b: string)
    ensures EqualsIgnoreCase(a, b) <==> ToUpperCase(a) == ToUpperCase(b)
    ensures EqualsIgnoreCase(a, b) <==> ToLowerCase(a) == ToLowerCase(b)
  {
    if ToUpperCase(a) == ToUpperCase(b) {
      forall k | 0 <= k < |a| ensures CharEqualsIgnoreCase(a[k], b[k]) {
        assert ToUpperCase(a)[k] == ToUpperCase(b)[k];
      }
    }
    if ToLowerCase(a) == ToLowerCase(b) {
      forall k | 0 <= k < |a| ensures CharEqualsIgnoreCase(a[k], b[k]) {
        assert ToLowerCase(a)[k] == ToLowerCase(b)[k];
      }
    }
    if EqualsIgnoreCase(a, b) {
      assert forall k :: 0 <= k < |a| ==> ToUpperCase(a)[k] == ToUpperCase(b)[k];
      assert forall k :: 0 <= k < |a| ==> ToLowerCase(a)[k] == ToLowerCase(b)[k];
    }
  }
}
