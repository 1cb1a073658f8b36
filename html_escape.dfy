/** `escapeHtml`: five global replacements applied in sequence, `&` first.
    Because `&` goes first, no later replacement can create an `&` that a
    later step would escape again, and the chain equals a map that escapes
    each character on its own. */
module HtmlEscape {

  /** `text.replace(/c/g, r)`. */
  function ReplaceAll(s: string, c: char, r: string): (t: string)
    ensures c !in s ==> t == s
  {
    if s == [] then [] else (if s[0] == c then r else [s[0]]) + ReplaceAll(s[1..], c, r)
  }

  /** `escapeHtml(text)`. */
  function EscapeHtml(text: string): string {
    ReplaceAll(ReplaceAll(ReplaceAll(ReplaceAll(ReplaceAll(text, '&', "&amp;"), '<', "&lt;"), '>', "&gt;"), '"', "&quot;"), '\'', "&#39;")
  }

  /** The escape of one character on its own. */
  function EscapeChar(c: char): string {
    if c == '&' then "&amp;"
    else if c == '<' then "&lt;"
    else if c == '>' then "&gt;"
    else if c == '"' then "&quot;"
    else if c == '\'' then "&#39;"
    else [c]
  }

  /** The per-character reference definition of the escape. */
  function EscapeEach(s: string): string {
    if s == [] then [] else EscapeChar(s[0]) + EscapeEach(s[1..])
  }

  lemma {:induction false} ReplaceAllAppend(a: string, b: string, c: char, r: string)
    ensures ReplaceAll(a + b, c, r) == ReplaceAll(a, c, r) + ReplaceAll(b, c, r)
  {
    if a != [] {
      var ab := a + b;
      assert ab[0] == a[0] && ab[1..] == a[1..] + b;
      ReplaceAllAppend(a[1..], b, c, r);
      assert ReplaceAll(ab, c, r) == (if a[0] == c then r else [a[0]]) + ReplaceAll(a[1..] + b, c, r);
    } else {
      assert a + b == b;
    }
  }

  /** The chain distributes over concatenation. */
  lemma EscapeHtmlAppend(a: string, b: string)
    ensures EscapeHtml(a + b) == EscapeHtml(a) + EscapeHtml(b)
  {
    var a1, b1 := ReplaceAll(a, '&', "&amp;"), ReplaceAll(b, '&', "&amp;");
    ReplaceAllAppend(a, b, '&', "&amp;");
    var a2, b2 := ReplaceAll(a1, '<', "&lt;"), ReplaceAll(b1, '<', "&lt;");
    ReplaceAllAppend(a1, b1, '<', "&lt;");
    var a3, b3 := ReplaceAll(a2, '>', "&gt;"), ReplaceAll(b2, '>', "&gt;");
    ReplaceAllAppend(a2, b2, '>', "&gt;");
    var a4, b4 := ReplaceAll(a3, '"', "&quot;"), ReplaceAll(b3, '"', "&quot;");
    ReplaceAllAppend(a3, b3, '"', "&quot;");
    ReplaceAllAppend(a4, b4, '\'', "&#39;");
  }

  /** The characters that have a meaning in HTML markup or attribute values. */
  predicate IsSpecial(c: char) {
    c == '&' || c == '<' || c == '>' || c == '"' || c == '\''
  }

  lemma ReplaceSingle(c: char, d: char, r: string)
    ensures ReplaceAll([c], d, r) == if c == d then r else [c]
  {
    assert [c][1..] == [];
  }

  /** A replacement of a character the text does not hold changes nothing. */
  lemma {:induction false} ReplaceAbsent(s: string, d: char, r: string)
    requires forall k :: 0 <= k < |s| ==> s[k] != d
    ensures ReplaceAll(s, d, r) == s
  {
    if s != [] {
      ReplaceAbsent(s[1..], d, r);
    }
  }

  /** The steps after the one that made an entity leave it alone. */
  lemma EntityInert(e: string)
    requires e == "&amp;" || e == "&lt;" || e == "&gt;" || e == "&quot;" || e == "&#39;"
    ensures ReplaceAll(e, '<', "&lt;") == e && ReplaceAll(e, '>', "&gt;") == e
    ensures ReplaceAll(e, '"', "&quot;") == e && ReplaceAll(e, '\'', "&#39;") == e
  {
    assert forall k :: 0 <= k < |e| ==> e[k] != '<' && e[k] != '>' && e[k] != '"' && e[k] != '\'';
    ReplaceAbsent(e, '<', "&lt;");
    ReplaceAbsent(e, '>', "&gt;");
    ReplaceAbsent(e, '"', "&quot;");
    ReplaceAbsent(e, '\'', "&#39;");
  }

  /** On one character the chain is that character's escape: an `&` made by
      the first step is never touched again, and each later step only adds
      characters the steps after it leave alone. */
  lemma EscapeHtmlChar(c: char)
    ensures EscapeHtml([c]) == EscapeChar(c)
  {
    ReplaceSingle(c, '&', "&amp;");
    ReplaceSingle(c, '<', "&lt;");
    ReplaceSingle(c, '>', "&gt;");
    ReplaceSingle(c, '"', "&quot;");
    ReplaceSingle(c, '\'', "&#39;");
    if IsSpecial(c) {
      EntityInert(EscapeChar(c));
    }
  }

  /** `escapeHtml` equals the per-character escape. */
  lemma {:induction false} EscapeHtmlIsPerChar(s: string)
    ensures EscapeHtml(s) == EscapeEach(s)
  {
    if s != [] {
      assert s == [s[0]] + s[1..];
      EscapeHtmlAppend([s[0]], s[1..]);
      EscapeHtmlChar(s[0]);
      EscapeHtmlIsPerChar(s[1..]);
    }
  }

  /** Text without special characters is left as it is. */
  lemma {:induction false} EscapePlain(s: string)
    requires forall k :: 0 <= k < |s| ==> !IsSpecial(s[k])
    ensures EscapeHtml(s) == s
  {
    EscapeHtmlIsPerChar(s);
    EscapeEachPlain(s);
  }

  lemma {:induction false} EscapeEachPlain(s: string)
    requires forall k :: 0 <= k < |s| ==> !IsSpecial(s[k])
    ensures EscapeEach(s) == s
  {
    if s != [] {
      EscapeEachPlain(s[1..]);
      assert s == [s[0]] + s[1..];
    }
  }

  /** The entity at index k of t, if t has one there. */
  predicate EntityAt(t: string, k: nat) {
    k <= |t| &&
    var rest := t[k..];
    (|rest| >= 5 && rest[..5] == "&amp;") || (|rest| >= 4 && rest[..4] == "&lt;")
    || (|rest| >= 4 && rest[..4] == "&gt;") || (|rest| >= 6 && rest[..6] == "&quot;")
    || (|rest| >= 5 && rest[..5] == "&#39;")
  }

  /** Safe HTML text: no `<`, `>`, `"` or `'`, and every `&` begins one of the
      five entities. */
  predicate SafeText(t: string) {
    forall k :: 0 <= k < |t| ==>
      t[k] != '<' && t[k] != '>' && t[k] != '"' && t[k] != '\'' && (t[k] == '&' ==> EntityAt(t, k))
  }

  lemma SafeAppend(a: string, b: string)
    requires SafeText(a) && SafeText(b)
    ensures SafeText(a + b)
  {
    var t := a + b;
    forall k | 0 <= k < |t| && t[k] == '&'
      ensures EntityAt(t, k)
    {
      if k < |a| {
        assert EntityAt(a, k);
        var n := if a[k..][..4] == "&lt;" || a[k..][..4] == "&gt;" then 4
                 else if |a[k..]| >= 6 && a[k..][..6] == "&quot;" then 6 else 5;
        assert t[k..][..n] == a[k..][..n];
      } else {
        assert b[k - |a|] == '&';
        assert EntityAt(b, k - |a|);
        assert t[k..] == b[k - |a|..];
      }
    }
  }

  lemma SafeChar(c: char)
    ensures SafeText(EscapeChar(c))
  {
    var t := EscapeChar(c);
    if c == '&' || c == '<' || c == '>' || c == '"' || c == '\'' {
      assert t[0..] == t;
    }
  }

  /** Escaped text is safe. */
  lemma {:induction false} EscapeSafe(s: string)
    ensures SafeText(EscapeHtml(s))
  {
    EscapeHtmlIsPerChar(s);
    EscapeEachSafe(s);
  }

  lemma {:induction false} EscapeEachSafe(s: string)
    ensures SafeText(EscapeEach(s))
  {
    if s != [] {
      EscapeEachSafe(s[1..]);
      SafeChar(s[0]);
      SafeAppend(EscapeChar(s[0]), EscapeEach(s[1..]));
    }
  }

  /** Decoding of the five entities, the inverse of the escape. */
  function Unescape(t: string): string
    decreases |t|
  {
    if t == [] then []
    else if |t| >= 5 && t[..5] == "&amp;" then "&" + Unescape(t[5..])
    else if |t| >= 4 && t[..4] == "&lt;" then "<" + Unescape(t[4..])
    else if |t| >= 4 && t[..4] == "&gt;" then ">" + Unescape(t[4..])
    else if |t| >= 6 && t[..6] == "&quot;" then "\"" + Unescape(t[6..])
    else if |t| >= 5 && t[..5] == "&#39;" then "'" + Unescape(t[5..])
    else [t[0]] + Unescape(t[1..])
  }

  /** Nothing is lost by escaping: decoding gives the text back. */
  lemma {:induction false} UnescapeEscape(s: string)
    ensures Unescape(EscapeHtml(s)) == s
  {
    EscapeHtmlIsPerChar(s);
    UnescapeEach(s);
  }

  lemma {:induction false} UnescapeEach(s: string)
    ensures Unescape(EscapeEach(s)) == s
  {
    if s != [] {
      UnescapeEach(s[1..]);
      UnescapeStep(s[0], EscapeEach(s[1..]));
      assert s == [s[0]] + s[1..];
    }
  }

  /** Decoding takes back the escape of one character, whatever follows it. */
  lemma UnescapeStep(c: char, rest: string)
    ensures Unescape(EscapeChar(c) + rest) == [c] + Unescape(rest)
  {
    var e := EscapeChar(c);
    var t := e + rest;
    assert t[..|e|] == e && t[|e|..] == rest;
    if c == '<' {
      assert |t| >= 5 ==> t[..5][1] == 'l';
    } else if c == '>' {
      assert |t| >= 5 ==> t[..5][1] == 'g';
      assert t[..4][1] == 'g';
    } else if c == '"' {
      assert |t| >= 5 ==> t[..5][1] == 'q';
      assert t[..4][1] == 'q';
    } else if c == '\'' {
      assert t[..5][1] == '#' && t[..4][1] == '#';
      assert |t| >= 6 ==> t[..6][1] == '#';
    } else if !IsSpecial(c) {
      assert t[0] == c && t[1..] == rest;
      assert |t| >= 4 ==> t[..4][0] == c;
      assert |t| >= 5 ==> t[..5][0] == c;
      assert |t| >= 6 ==> t[..6][0] == c;
    }
  }
}
