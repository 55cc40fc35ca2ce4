/**
 * Kotlin's `isBlank`: a string is blank when every character is
 * whitespace, the empty string included. `Char.isWhitespace` is Java's
 * `Character.isWhitespace` or `Character.isSpaceChar`: the space, line and
 * paragraph separators of Unicode (no-break spaces included) and the
 * control characters U+0009 to U+000D and U+001C to U+001F.
 */
module Text {
  predicate IsWhitespace(c: char)
  {
    ('\t' <= c <= '\r') || ('\U{1C}' <= c <= '\U{1F}')
    || c == ' ' || c == '\U{A0}' || c == '\U{1680}' || ('\U{2000}' <= c <= '\U{200A}')
    || c == '\U{2028}' || c == '\U{2029}' || c == '\U{202F}' || c == '\U{205F}' || c == '\U{3000}'
  }

  predicate IsBlank(s: string)
  {
    forall i :: 0 <= i < |s| ==> IsWhitespace(s[i])
  }

  /** A concatenation is blank exactly when both parts are. */
  lemma BlankAppend(s: string, t: string)
    ensures IsBlank(s + t) <==> IsBlank(s) && IsBlank(t)
  {
    if IsBlank(s) && IsBlank(t) {
      forall i | 0 <= i < |s + t| ensures IsWhitespace((s + t)[i]) {
        if i >= |s| { assert (s + t)[i] == t[i - |s|]; }
      }
    }
    if IsBlank(s + t) {
      forall i | 0 <= i < |s| ensures IsWhitespace(s[i]) {
        assert (s + t)[i] == s[i];
      }
      forall i | 0 <= i < |t| ensures IsWhitespace(t[i]) {
        assert (s + t)[|s| + i] == t[i];
      }
    }
  }

  /** The empty string and all-space strings are blank; a letter makes a string non-blank. */
  lemma BlankExamples()
    ensures IsBlank("") && IsBlank("  \t") && IsBlank("\U{A0}\U{3000}")
    ensures !IsBlank("Ann") && !IsBlank(" a ")
  {
    assert !IsWhitespace("Ann"[0]);
    assert !IsWhitespace(" a "[1]);
  }
}
