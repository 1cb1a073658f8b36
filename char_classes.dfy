/** Character classes the parser's regular expressions and string calls rely on:
    JavaScript's `\s`, the line terminators that `.` refuses, `\d`, the set of
    characters a backslash may escape, and the test `s.trim() === ''`. */
module CharClasses {

  /** JavaScript's `\s` class; `String.prototype.trim` strips exactly these characters. */
  predicate IsWhitespace(c: char) {
    || c == '\t' || c == '\n' || c == '\U{B}' || c == '\U{C}' || c == '\r' || c == ' '
    || c == '\U{A0}' || c == '\U{1680}' || ('\U{2000}' <= c <= '\U{200A}')
    || c == '\U{2028}' || c == '\U{2029}' || c == '\U{202F}' || c == '\U{205F}'
    || c == '\U{3000}' || c == '\U{FEFF}'
  }

  /** The characters the regular-expression wildcard `.` does not match. */
  predicate IsLineTerminator(c: char) {
    c == '\n' || c == '\r' || c == '\U{2028}' || c == '\U{2029}'
  }

  /** JavaScript's `\d`: ASCII digits only. */
  predicate IsDigit(c: char) {
    '0' <= c <= '9'
  }

  /** `ESCAPABLE_CHARS`: the 32 ASCII punctuation characters a backslash may escape. */
  const EscapableChars: set<char> := {
    '!', '"', '#', '$', '%', '&', '\'', '(', ')', '*', '+', ',', '-', '.', '/', ':',
    ';', '<', '=', '>', '?', '@', '[', '\\', ']', '^', '_', '`', '{', '|', '}', '~'
  }

  /** The ASCII punctuation ranges: the same 32 characters as EscapableChars. */
  predicate IsAsciiPunctuation(c: char) {
    ('!' <= c <= '/') || (':' <= c <= '@') || ('[' <= c <= '`') || ('{' <= c <= '~')
  }

  lemma EscapableIsPunctuation(c: char)
    ensures c in EscapableChars <==> IsAsciiPunctuation(c)
  {
  }

  /** `s.trim() === ''`: every character of `s` is whitespace. */
  predicate IsBlank(s: string) {
    forall k :: 0 <= k < |s| ==> IsWhitespace(s[k])
  }

  /** The capture of `(.*)`: the longest prefix of `s` free of line terminators. */
  function LineContent(s: string): (r: string)
    ensures |r| <= |s|
    ensures forall k :: 0 <= k < |r| ==> !IsLineTerminator(r[k])
    ensures |r| < |s| ==> IsLineTerminator(s[|r|])
  {
    if s == [] || IsLineTerminator(s[0]) then [] else [s[0]] + LineContent(s[1..])
  }

  /** The capture is a prefix of `s`. */
  lemma {:induction false} LineContentPrefix(s: string)
    ensures LineContent(s) == s[..|LineContent(s)|]
  {
    if s != [] && !IsLineTerminator(s[0]) {
      LineContentPrefix(s[1..]);
    }
  }

  /** The length of the run `\s*` matches at the start of `s`. */
  function LeadingWhitespace(s: string): (n: nat)
    ensures n <= |s|
    ensures forall k :: 0 <= k < n ==> IsWhitespace(s[k])
    ensures n < |s| ==> !IsWhitespace(s[n])
  {
    if s == [] || !IsWhitespace(s[0]) then 0 else 1 + LeadingWhitespace(s[1..])
  }

  /** The length of the run `\d+` matches at the start of `s` (0 when there is none). */
  function LeadingDigits(s: string): (n: nat)
    ensures n <= |s|
    ensures forall k :: 0 <= k < n ==> IsDigit(s[k])
    ensures n < |s| ==> !IsDigit(s[n])
  {
    if s == [] || !IsDigit(s[0]) then 0 else 1 + LeadingDigits(s[1..])
  }

  /** The number of copies of `c` that open `s`. */
  function CountLeading(s: string, c: char): (n: nat)
    ensures n <= |s|
    ensures forall k :: 0 <= k < n ==> s[k] == c
    ensures n < |s| ==> s[n] != c
  {
    if s == [] || s[0] != c then 0 else 1 + CountLeading(s[1..], c)
  }

  /** Any n that delimits a maximal run of whitespace at the start of s is the
      length LeadingWhitespace finds. */
  lemma {:induction false} LeadingWhitespaceIs(s: string, n: nat)
    requires n <= |s| && (forall k :: 0 <= k < n ==> IsWhitespace(s[k]))
    requires n < |s| ==> !IsWhitespace(s[n])
    ensures LeadingWhitespace(s) == n
  {
    if n > 0 {
      LeadingWhitespaceIs(s[1..], n - 1);
    }
  }

  lemma {:induction false} LeadingDigitsIs(s: string, n: nat)
    requires n <= |s| && (forall k :: 0 <= k < n ==> IsDigit(s[k]))
    requires n < |s| ==> !IsDigit(s[n])
    ensures LeadingDigits(s) == n
  {
    if n > 0 {
      LeadingDigitsIs(s[1..], n - 1);
    }
  }

  lemma {:induction false} CountLeadingIs(s: string, c: char, n: nat)
    requires n <= |s| && (forall k :: 0 <= k < n ==> s[k] == c)
    requires n < |s| ==> s[n] != c
    ensures CountLeading(s, c) == n
  {
    if n > 0 {
      CountLeadingIs(s[1..], c, n - 1);
    }
  }
}
