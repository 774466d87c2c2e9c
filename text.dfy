/** The string rule behind FluentValidation's `NotEmpty()`: a string passes
    when it holds at least one character that is not white space. */
module Text {

  /** `char.IsWhiteSpace`: the Unicode space, line and paragraph separators,
      the control characters U+0009 to U+000D, and U+0085. */
  predicate IsWhiteSpace(c: char) {
    || c == ' ' || ('\t' <= c <= '\r') || c == '\U{85}' || c == '\U{A0}'
    || c == '\U{1680}' || ('\U{2000}' <= c <= '\U{200A}')
    || c == '\U{2028}' || c == '\U{2029}' || c == '\U{202F}' || c == '\U{205F}'
    || c == '\U{3000}'
  }

  predicate IsBlank(s: string) {
    forall i :: 0 <= i < |s| ==> IsWhiteSpace(s[i])
  }

  predicate NotEmpty(s: string) {
    !IsBlank(s)
  }

  /** The values the test suite feeds to the rule: "" and " " fail it,
      an ordinary identifier passes. */
  lemma NotEmptyExamples()
    ensures !NotEmpty("") && !NotEmpty(" ")
    ensures NotEmpty("some id")
  {
    assert !IsWhiteSpace("some id"[0]);
  }
}
