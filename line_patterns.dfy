/** The line-level text operations of the block parser: `split("\n")` and the
    anchored patterns of `REGEX_PATTERNS` (heading, quote, link, bullet and
    ordered list item), each written out as the match the regular expression
    engine finds, with its meaning stated as a predicate on the line. */
module LinePatterns {
  import opened CharClasses
  import opened Syntax

  /** `s.split("\n")`: the pieces between newlines, in order. */
  function Split(s: string): (lines: seq<string>)
    ensures |lines| >= 1
  {
    if s == [] then [""]
    else
      var rest := Split(s[1..]);
      if s[0] == '\n' then [""] + rest else [[s[0]] + rest[0]] + rest[1..]
  }

  /** `lines.join("\n")`, the inverse of Split. */
  function Join(lines: seq<string>): string
    requires |lines| >= 1
  {
    if |lines| == 1 then lines[0] else lines[0] + "\n" + Join(lines[1..])
  }

  lemma {:induction false} JoinSplit(s: string)
    ensures Join(Split(s)) == s
    ensures forall k :: 0 <= k < |Split(s)| ==> '\n' !in Split(s)[k]
  {
    if s != [] {
      var rest := Split(s[1..]);
      JoinSplit(s[1..]);
      if s[0] == '\n' {
        assert Split(s)[1..] == rest;
        assert s == "" + "\n" + s[1..];
      } else {
        var lines := Split(s);
        if |rest| == 1 {
          assert lines == [[s[0]] + rest[0]];
        } else {
          assert lines[1..] == rest[1..];
          assert Join(rest) == rest[0] + "\n" + Join(rest[1..]);
        }
        forall k | 0 <= k < |lines|
          ensures '\n' !in lines[k]
        {
          if k > 0 {
            assert lines[k] == rest[k];
          }
        }
      }
    }
  }

  /** Text without a newline joins the first piece of what follows it. */
  lemma {:induction false} SplitPrefix(a: string, t: string)
    requires forall k :: 0 <= k < |a| ==> a[k] != '\n'
    ensures Split(a + t) == [a + Split(t)[0]] + Split(t)[1..]
  {
    if a == [] {
      var lines := Split(t);
      assert a + t == t && a + lines[0] == lines[0];
      assert lines == [lines[0]] + lines[1..];
    } else {
      var at := a + t;
      assert at[0] == a[0] && at[1..] == a[1..] + t;
      SplitPrefix(a[1..], t);
      assert [a[0]] + (a[1..] + Split(t)[0]) == a + Split(t)[0];
    }
  }

  /** Splitting lines joined with `\n` gives the lines back, when none of them
      holds a newline. */
  lemma {:induction false} SplitJoin(lines: seq<string>)
    requires |lines| >= 1
    requires forall j, k :: 0 <= j < |lines| && 0 <= k < |lines[j]| ==> lines[j][k] != '\n'
    ensures Split(Join(lines)) == lines
  {
    if |lines| == 1 {
      SplitPrefix(lines[0], "");
      assert lines[0] + "" == lines[0];
    } else {
      var rest := Join(lines[1..]);
      SplitJoin(lines[1..]);
      var t := "\n" + rest;
      assert t[0] == '\n' && t[1..] == rest;
      assert Split(t) == [""] + lines[1..];
      SplitPrefix(lines[0], t);
      assert lines[0] + "" == lines[0];
      assert Join(lines) == lines[0] + t;
      assert lines == [lines[0]] + lines[1..];
    }
  }

  /** Every piece of the split of a string consisting only of `ok` characters
      consists only of `ok` characters. */
  lemma {:induction false} SplitBlank(s: string)
    requires IsBlank(s)
    ensures forall k :: 0 <= k < |Split(s)| ==> IsBlank(Split(s)[k])
  {
    if s != [] {
      SplitBlank(s[1..]);
      var rest := Split(s[1..]);
      var lines := Split(s);
      if s[0] != '\n' {
        forall k | 0 <= k < |lines|
          ensures IsBlank(lines[k])
        {
          if k > 0 {
            assert lines[k] == rest[k];
          } else {
            assert IsBlank(rest[0]);
            assert lines[0] == [s[0]] + rest[0];
          }
        }
      }
    }
  }

  /** Splitting a string yields one line exactly when it has no newline. */
  lemma {:induction false} SplitSingle(s: string)
    ensures |Split(s)| == 1 <==> '\n' !in s
    ensures '\n' !in s ==> Split(s) == [s]
  {
    if s != [] {
      SplitSingle(s[1..]);
      assert '\n' in s <==> s[0] == '\n' || '\n' in s[1..];
      if '\n' !in s {
        assert [s[0]] + s[1..] == s;
      }
    }
  }

  /** `^(#{1,6})\s`: n hashes, 1 <= n <= 6, and then a whitespace character. */
  predicate HeadingPrefix(line: string, n: nat) {
    1 <= n <= 6 && n < |line| && (forall k :: 0 <= k < n ==> line[k] == '#') && IsWhitespace(line[n])
  }

  /** `^(>)\s`. */
  predicate QuotePrefix(line: string) {
    2 <= |line| && line[0] == '>' && IsWhitespace(line[1])
  }

  /** No line terminator in s: what `.*?` may cover. */
  predicate OnOneLine(s: string) {
    forall k :: 0 <= k < |s| ==> !IsLineTerminator(s[k])
  }

  /** `^\[(.*?)\]\((.*?)\)` matching with `]` at `close` and `)` at `end`. */
  predicate LinkAt(line: string, close: nat, end: nat) {
    && 1 <= close && close + 2 <= end < |line|
    && line[0] == '[' && line[close] == ']' && line[close + 1] == '(' && line[end] == ')'
    && OnOneLine(line[1..close]) && OnOneLine(line[close + 2..end])
  }

  /** `^(\s*-\s)` with w leading whitespace characters. */
  predicate BulletPrefix(line: string, w: nat) {
    w + 1 < |line| && (forall k :: 0 <= k < w ==> IsWhitespace(line[k]))
    && line[w] == '-' && IsWhitespace(line[w + 1])
  }

  /** `^(\s*\d+\.\s)` with w leading whitespace characters and d digits. */
  predicate OrderedPrefix(line: string, w: nat, d: nat) {
    1 <= d && (forall k :: 0 <= k < w && k < |line| ==> IsWhitespace(line[k]))
    && (forall k :: w <= k < w + d && k < |line| ==> IsDigit(line[k]))
    && DotSpaceAt(line, w + d)
  }

  /** `\.\s` at index i. */
  predicate DotSpaceAt(line: string, i: nat) {
    i + 1 < |line| && line[i] == '.' && IsWhitespace(line[i + 1])
  }

  /** The groups a block pattern captures: the heading's hashes and text, the
      quote's text, the link's text and url. `content` is the group whose
      inline parse becomes the node's children (group 2 of a heading or a
      quote, group 1 of a link). */
  datatype Captured =
    | HeadingCaptured(hashes: nat, content: string)
    | QuoteCaptured(content: string)
    | LinkCaptured(content: string, url: string)

  /** `line.match(REGEX_PATTERNS.heading)`. `#{1,6}` takes as many hashes as it
      can and gives them back one by one, so only the whole run of leading
      hashes can be followed by whitespace. */
  function MatchHeading(line: string): (m: Option<Captured>)
    ensures m.Some? ==> (m.value.HeadingCaptured? && HeadingPrefix(line, m.value.hashes)
                         && m.value.content == LineContent(line[m.value.hashes + 1..]))
    ensures m.None? ==> forall n :: !HeadingPrefix(line, n)
  {
    var n := CountLeading(line, '#');
    if 1 <= n <= 6 && n < |line| && IsWhitespace(line[n]) then
      Some(HeadingCaptured(n, LineContent(line[n + 1..])))
    else
      assert forall n' :: HeadingPrefix(line, n') ==> n' == n;
      None
  }

  /** `line.match(REGEX_PATTERNS.quote)`. */
  function MatchQuote(line: string): (m: Option<Captured>)
    ensures m.Some? <==> QuotePrefix(line)
    ensures m.Some? ==> m == Some(QuoteCaptured(LineContent(line[2..])))
  {
    if 2 <= |line| && line[0] == '>' && IsWhitespace(line[1]) then Some(QuoteCaptured(LineContent(line[2..]))) else None
  }

  /** The lazy `(.*?)\)`: the first `)` at or after `from` that no line
      terminator precedes, or -1. */
  function CloseParen(line: string, from: nat): (r: int)
    ensures r == -1 || (from <= r < |line| && line[r] == ')' && OnOneLine(line[from..r]))
    ensures r == -1 ==> forall end :: from <= end < |line| && line[end] == ')' ==> !OnOneLine(line[from..end])
    ensures r != -1 ==> forall end :: from <= end < r ==> line[end] != ')'
    decreases |line| - from
  {
    if from >= |line| then -1
    else if line[from] == ')' then from
    else if IsLineTerminator(line[from]) then
      assert forall end :: from < end < |line| ==> line[from..end][0] == line[from];
      -1
    else
      var r := CloseParen(line, from + 1);
      assert forall end :: from < end <= |line| ==> line[from..end] == [line[from]] + line[from + 1..end];
      r
  }

  /** The lazy `(.*?)\]\(` with backtracking: the first `](` at or after
      `close` that a `)` follows on the same line, or -1; the search gives up
      at a line terminator, which `.` cannot cover. */
  function LinkClose(line: string, close: nat): (r: int)
    requires 1 <= close <= |line| && line[0] == '['
    requires OnOneLine(line[1..close])
    ensures r == -1 ==> forall c, e :: close <= c ==> !LinkAt(line, c, e)
    ensures r != -1 ==> close <= r && CloseParen(line, r + 2) != -1 && LinkAt(line, r, CloseParen(line, r + 2) as nat)
    ensures r != -1 ==> forall c, e :: close <= c < r ==> !LinkAt(line, c, e)
    decreases |line| - close
  {
    if close >= |line| then -1
    else if line[close] == ']' && close + 1 < |line| && line[close + 1] == '(' && CloseParen(line, close + 2) != -1 then
      close
    else if IsLineTerminator(line[close]) then
      TerminatorEndsLink(line, close);
      -1
    else
      NoLinkAt(line, close);
      OnOneLineExtend(line, close);
      LinkClose(line, close + 1)
  }

  /** A `]` not followed by `(` and a `)` on the same line closes no link. */
  lemma NoLinkAt(line: string, close: nat)
    requires close < |line|
    requires !(line[close] == ']' && close + 1 < |line| && line[close + 1] == '(' && CloseParen(line, close + 2) != -1)
    ensures forall e :: !LinkAt(line, close, e)
  {
  }

  /** No `]` of a link lies beyond a line terminator in its text. */
  lemma TerminatorEndsLink(line: string, close: nat)
    requires 1 <= close < |line| && IsLineTerminator(line[close])
    ensures forall c, e :: close < c ==> !LinkAt(line, c, e)
  {
    forall c: nat, e: nat | close < c
      ensures !LinkAt(line, c, e)
    {
      if c <= |line| {
        assert line[1..c][close - 1] == line[close];
      }
    }
  }

  lemma OnOneLineExtend(line: string, close: nat)
    requires 1 <= close < |line| && OnOneLine(line[1..close]) && !IsLineTerminator(line[close])
    ensures OnOneLine(line[1..close + 1])
  {
    assert line[1..close + 1] == line[1..close] + [line[close]];
  }

  /** `line.match(REGEX_PATTERNS.link)`: of all the ways the pattern fits, the
      lazy groups pick the one with the earliest `]`, then the earliest `)`. */
  function MatchLink(line: string): (m: Option<Captured>)
    ensures m.None? ==> forall c, e :: !LinkAt(line, c, e)
    ensures m.Some? ==> (m.value.LinkCaptured? &&
      var c := |m.value.content| + 1;
      var e := c + 2 + |m.value.url|;
      && LinkAt(line, c, e)
      && m.value.content == line[1..c] && m.value.url == line[c + 2..e]
      && forall c', e' :: LinkAt(line, c', e') ==> c < c' || (c == c' && e <= e'))
  {
    if |line| > 0 && line[0] == '[' then
      var c := LinkClose(line, 1);
      if c == -1 then None
      else
        var e := CloseParen(line, c + 2);
        Some(LinkCaptured(line[1..c], line[c + 2..e]))
    else None
  }

  /** The two list patterns. */
  datatype ListKind = Bullet | Ordered

  datatype ListCaptured = ListCaptured(kind: ListKind, content: string)

  /** `line.match(REGEX_PATTERNS.listItem)`: `\s*` takes all leading
      whitespace, and giving any back cannot help since `-` is not whitespace. */
  function MatchBullet(line: string): Option<ListCaptured> {
    var w := LeadingWhitespace(line);
    if w + 1 < |line| && line[w] == '-' && IsWhitespace(line[w + 1]) then
      Some(ListCaptured(Bullet, LineContent(line[w + 2..])))
    else None
  }

  /** `line.match(REGEX_PATTERNS.orderedListItem)`: `\s*` and `\d+` are greedy,
      and giving characters back cannot help since neither `.` nor a digit is
      whitespace and `.` is no digit. */
  function MatchOrdered(line: string): Option<ListCaptured> {
    var w := LeadingWhitespace(line);
    var d := LeadingDigits(line[w..]);
    if 1 <= d && DotSpaceAt(line, w + d) then
      Some(ListCaptured(Ordered, LineContent(line[w + d + 2..])))
    else None
  }

  /** The only whitespace and digit counts an ordered prefix can have. */
  lemma OrderedPrefixUnique(line: string, w: nat, d: nat)
    requires OrderedPrefix(line, w, d)
    ensures w == LeadingWhitespace(line) && d == LeadingDigits(line[w..])
  {
    LeadingWhitespaceIs(line, w);
    LeadingDigitsIs(line[w..], d);
  }

  /** The captures of a bullet line. */
  lemma BulletMatchIs(line: string, w: nat)
    requires BulletPrefix(line, w)
    ensures MatchBullet(line) == Some(ListCaptured(Bullet, LineContent(line[w + 2..])))
  {
    LeadingWhitespaceIs(line, w);
  }

  /** The bullet pattern matches exactly the lines with a bullet prefix. */
  lemma BulletMatchSpec(line: string)
    ensures MatchBullet(line).Some? <==> exists w :: BulletPrefix(line, w)
  {
    if MatchBullet(line).Some? {
      assert BulletPrefix(line, LeadingWhitespace(line));
    } else {
      forall w: nat | BulletPrefix(line, w)
        ensures false
      {
        BulletMatchIs(line, w);
      }
    }
  }

  /** An ordered line is no bullet line: its first non-whitespace character is a digit. */
  lemma OrderedNotBullet(line: string, w: nat, d: nat)
    requires OrderedPrefix(line, w, d)
    ensures MatchBullet(line).None?
  {
    LeadingWhitespaceIs(line, w);
    assert IsDigit(line[w]);
  }

  lemma OrderedMatchAt(line: string, w: nat, d: nat)
    requires w == LeadingWhitespace(line) && d == LeadingDigits(line[w..])
    requires 1 <= d && DotSpaceAt(line, w + d)
    ensures MatchOrdered(line) == Some(ListCaptured(Ordered, LineContent(line[w + d + 2..])))
  {
  }

  /** The captures of an ordered line; such a line is no bullet line. */
  lemma OrderedMatchIs(line: string, w: nat, d: nat)
    requires OrderedPrefix(line, w, d)
    ensures MatchBullet(line).None?
    ensures MatchOrdered(line) == Some(ListCaptured(Ordered, LineContent(line[w + d + 2..])))
  {
    OrderedNotBullet(line, w, d);
    OrderedPrefixUnique(line, w, d);
    OrderedMatchAt(line, w, d);
  }

  /** The ordered pattern matches exactly the lines with an ordered prefix. */
  lemma OrderedMatchSpec(line: string)
    ensures MatchOrdered(line).Some? <==> exists w, d :: OrderedPrefix(line, w, d)
  {
    if MatchOrdered(line).Some? {
      var w := LeadingWhitespace(line);
      var d := LeadingDigits(line[w..]);
      var rest := line[w..];
      forall k | w <= k < w + d
        ensures IsDigit(line[k])
      {
        assert line[k] == rest[k - w];
      }
      assert OrderedPrefix(line, w, d);
    } else {
      forall w: nat, d: nat | OrderedPrefix(line, w, d)
        ensures false
      {
        OrderedMatchIs(line, w, d);
      }
    }
  }
}
