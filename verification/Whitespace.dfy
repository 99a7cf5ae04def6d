/** White space and trimming, as Rust's `char::is_whitespace` and `str::trim` have them. */
module Whitespace {
  predicate IsWhitespace(c: char) {
    || '\t' <= c <= '\r' || c == ' ' || c == '\U{85}' || c == '\U{A0}' || c == '\U{1680}'
    || '\U{2000}' <= c <= '\U{200A}' || c == '\U{2028}' || c == '\U{2029}' || c == '\U{202F}'
    || c == '\U{205F}' || c == '\U{3000}'
  }

  predicate Trimmed(s: string) {
    s != "" ==> !IsWhitespace(s[0]) && !IsWhitespace(s[|s| - 1])
  }

  function Trim(s: string): string {
    if s == "" then s
    else if IsWhitespace(s[0]) then Trim(s[1..])
    else if IsWhitespace(s[|s| - 1]) then Trim(s[..|s| - 1])
    else s
  }

  lemma {:induction false} TrimIsTrimmed(s: string)
    ensures Trimmed(Trim(s)) && (Trimmed(s) ==> Trim(s) == s)
  {
    if s != "" && IsWhitespace(s[0]) {
      TrimIsTrimmed(s[1..]);
    } else if s != "" && IsWhitespace(s[|s| - 1]) {
      TrimIsTrimmed(s[..|s| - 1]);
    }
  }

  predicate Blank(s: string) {
    forall c | c in s :: IsWhitespace(c)
  }

  /** Trimming takes white space from both ends, and nothing else. */
  lemma {:induction false} TrimTakesBlanks(s: string) returns (left: string, right: string)
    ensures s == left + Trim(s) + right && Blank(left) && Blank(right)
  {
    if s != "" && IsWhitespace(s[0]) {
      var l, r := TrimTakesBlanks(s[1..]);
      left, right := [s[0]] + l, r;
    } else if s != "" && IsWhitespace(s[|s| - 1]) {
      var l, r := TrimTakesBlanks(s[..|s| - 1]);
      left, right := l, r + [s[|s| - 1]];
      assert s == s[..|s| - 1] + [s[|s| - 1]];
    } else {
      left, right := "", "";
    }
  }
}
