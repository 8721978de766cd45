/**
 * The parts of java.lang.Character and java.lang.String that the generator
 * relies on: alphabetic characters, white space, blank strings and
 * case-insensitive comparison.
 */
module Text {

  /** Character.isAlphabetic, restricted to the ASCII letters (cell references are ASCII). */
  predicate IsAlphabetic(c: char) {
    'A' <= c <= 'Z' || 'a' <= c <= 'z'
  }

  /**
   * Character.isWhitespace: the Unicode space, line and paragraph separators
   * other than the non-breaking ones, plus the ASCII control characters
   * TAB, LF, VT, FF, CR and FS, GS, RS, US.
   */
  predicate IsWhitespace(c: char) {
    || '\t' <= c <= '\r'
    || '\U{1C}' <= c <= ' '
    || c == '\U{1680}'
    || '\U{2000}' <= c <= '\U{2006}'
    || '\U{2008}' <= c <= '\U{200A}'
    || c == '\U{2028}' || c == '\U{2029}'
    || c == '\U{205F}' || c == '\U{3000}'
  }

  /** String.isBlank: empty, or made only of white space. */
  predicate IsBlank(s: string) {
    forall i :: 0 <= i < |s| ==> IsWhitespace(s[i])
  }

  /** Character.toUpperCase on the ASCII range; every other character maps to itself. */
  function ToUpper(c: char): (u: char)
    ensures !('a' <= u <= 'z')
    ensures 'A' <= c <= 'Z' ==> u == c
  {
    if 'a' <= c <= 'z' then (c as int - 32) as char else c
  }

  /** Character.toLowerCase on the ASCII range; every other character maps to itself. */
  function ToLower(c: char): (l: char)
    ensures !('A' <= l <= 'Z')
    ensures 'a' <= c <= 'z' ==> l == c
  {
    if 'A' <= c <= 'Z' then (c as int + 32) as char else c
  }

  /**
   * The per-character test of String.regionMatches with ignoreCase set:
   * equal, equal after upper-casing, or equal after upper- then lower-casing.
   */
  predicate CharEqualsIgnoreCase(a: char, b: char) {
    a == b || ToUpper(a) == ToUpper(b) || ToLower(ToUpper(a)) == ToLower(ToUpper(b))
  }

  /** String.equalsIgnoreCase against a non-null argument. */
  predicate EqualsIgnoreCase(a: string, b: string) {
    |a| == |b| && forall i :: 0 <= i < |a| ==> CharEqualsIgnoreCase(a[i], b[i])
  }

  /** Two characters match ignoring case exactly when they upper-case to the same character. */
  lemma CharEqualsIgnoreCaseIff(a: char, b: char)
    ensures CharEqualsIgnoreCase(a, b) <==> ToUpper(a) == ToUpper(b)
  {
    if ToLower(ToUpper(a)) == ToLower(ToUpper(b)) {
      var ua, ub := ToUpper(a), ToUpper(b);
      if 'A' <= ua <= 'Z' || 'A' <= ub <= 'Z' {
        assert 'A' <= ua <= 'Z' && 'A' <= ub <= 'Z';
        assert (ua as int + 32) == (ub as int + 32);
      }
    }
  }

  /** equalsIgnoreCase is an equivalence: reflexive, symmetric and transitive. */
  lemma EqualsIgnoreCaseIsEquivalence(a: string, b: string, c: string)
    ensures EqualsIgnoreCase(a, a)
    ensures EqualsIgnoreCase(a, b) ==> EqualsIgnoreCase(b, a)
    ensures EqualsIgnoreCase(a, b) && EqualsIgnoreCase(b, c) ==> EqualsIgnoreCase(a, c)
  {
    if EqualsIgnoreCase(a, b) {
      forall i | 0 <= i < |b| ensures CharEqualsIgnoreCase(b[i], a[i]) {
        CharEqualsIgnoreCaseIff(a[i], b[i]);
        CharEqualsIgnoreCaseIff(b[i], a[i]);
      }
      if EqualsIgnoreCase(b, c) {
        forall i | 0 <= i < |a| ensures CharEqualsIgnoreCase(a[i], c[i]) {
          CharEqualsIgnoreCaseIff(a[i], b[i]);
          CharEqualsIgnoreCaseIff(b[i], c[i]);
          CharEqualsIgnoreCaseIff(a[i], c[i]);
        }
      }
    }
  }
}
