/** What `parseMarkdown` promises about whole documents and single lines: the
    empty and blank inputs, one effect per line in handler order, headings,
    quotes, links and the merging of list items. */
module BlockProperties {
  import opened CharClasses
  import opened Syntax
  import opened InlineScanner
  import opened InlineProperties
  import opened LinePatterns
  import opened BlockParser

  /** The handler chain written out: the first handler that accepts the line
      decides its effect. */
  lemma ApplyLineCases(children: seq<Node>, line: string)
    ensures ApplyLine(children, line) ==
      if line == "" then children + [LineBreak]
      else if BlockNode(line).Some? then children + [BlockNode(line).value]
      else if ListEntry(line).Some? then
        AppendListItem(children, ListEntry(line).value.kind, ItemNode(ListEntry(line).value.kind, Inline(ListEntry(line).value.content)))
      else if ParagraphNode(line).Some? then children + [ParagraphNode(line).value]
      else children
  {
    assert IsBlank(line) && |line| == 0 <==> line == "";
    assert HandleFrom(children, line, 4) == children;
    assert HandleFrom(children, line, 3) == if ParagraphNode(line).Some? then children + [ParagraphNode(line).value] else children;
  }

  /** The block patterns in key order. */
  lemma BlockNodeCases(line: string)
    ensures BlockNode(line) ==
      if MatchHeading(line).Some? then Some(Heading(MatchHeading(line).value.hashes, Inline(MatchHeading(line).value.content)))
      else if MatchQuote(line).Some? then Some(Quote(Inline(MatchQuote(line).value.content)))
      else if MatchLink(line).Some? then Some(Link(MatchLink(line).value.url, "", Inline(MatchLink(line).value.content)))
      else None
  {
    var rest := [QuoteKey, LinkKey];
    assert PatternKeys[1..] == rest && rest[1..] == [LinkKey] && [LinkKey][1..] == [];
    assert FirstMatch(line, [LinkKey]) == MatchLink(line);
    assert FirstMatch(line, rest) == if MatchQuote(line).Some? then MatchQuote(line) else MatchLink(line);
    assert FirstMatch(line, PatternKeys) == if MatchHeading(line).Some? then MatchHeading(line) else FirstMatch(line, rest);
  }

  /** A line whose first character cannot open a heading, a quote or a link
      matches no block pattern. */
  lemma NoBlock(line: string)
    requires line != "" && line[0] != '#' && line[0] != '>' && line[0] != '['
    ensures BlockNode(line).None?
  {
    BlockNodeCases(line);
    assert CountLeading(line, '#') == 0;
  }

  /** A line that is not empty is always taken by some handler: at the latest
      the paragraph handler, since its inline parse is never empty. */
  lemma ParagraphFallback(line: string)
    requires line != ""
    ensures ParagraphNode(line) == Some(Paragraph(Inline(line)))
  {
    InlineWellFormed(line);
  }

  /** `last` grew into `grown` by one item at the end, keeping its list type. */
  predicate ListGrew(last: Node, grown: Node) {
    && ((last.List? && grown.List?) || (last.OrderedList? && grown.OrderedList?))
    && |grown.children| == |last.children| + 1
    && grown.children[..|last.children|] == last.children
  }

  /** One effect per line: an empty line appends a line break; any other line
      either appends exactly one node or adds exactly one item to the last
      child, which is a list; nothing else changes. */
  lemma OneEffect(children: seq<Node>, line: string)
    ensures line == "" ==> ApplyLine(children, line) == children + [LineBreak]
    ensures var r := ApplyLine(children, line);
      || (|r| == |children| + 1 && r[..|children|] == children)
      || (&& |children| > 0 && |r| == |children| && r[..|r| - 1] == children[..|children| - 1]
          && ListGrew(children[|children| - 1], r[|r| - 1]))
  {
    ApplyLineCases(children, line);
    if line != "" {
      ParagraphFallback(line);
      var entry := ListEntry(line);
      if BlockNode(line).None? && entry.Some? {
        ListEffect(children, entry.value.kind, ItemNode(entry.value.kind, Inline(entry.value.content)));
      }
    }
  }

  /** A list item either opens a list after the children or grows the last one. */
  lemma ListEffect(children: seq<Node>, kind: ListKind, item: Node)
    ensures var r := AppendListItem(children, kind, item);
      || (|r| == |children| + 1 && r[..|children|] == children)
      || (&& |children| > 0 && |r| == |children| && r[..|r| - 1] == children[..|children| - 1]
          && ListGrew(children[|children| - 1], r[|r| - 1]))
  {
    var r := AppendListItem(children, kind, item);
    if |children| > 0 && IsListOf(children[|children| - 1], kind) {
      var last := children[|children| - 1];
      assert (last.children + [item])[..|last.children|] == last.children;
    } else {
      assert r[..|children|] == children;
    }
  }

  /** Every line adds at most one child to the document. */
  lemma {:induction false} BlocksLength(lines: seq<string>)
    ensures |Blocks(lines)| <= |lines|
  {
    if lines != [] {
      BlocksLength(lines[..|lines| - 1]);
      OneEffect(Blocks(lines[..|lines| - 1]), lines[|lines| - 1]);
    }
  }

  /** A line that no earlier handler takes becomes a paragraph of its inline parse. */
  lemma ParagraphLine(children: seq<Node>, line: string)
    requires line != "" && BlockNode(line).None? && ListEntry(line).None?
    ensures ApplyLine(children, line) == children + [Paragraph(Inline(line))]
  {
    ApplyLineCases(children, line);
    ParagraphFallback(line);
  }

  /** A blank line of non-zero length matches no block or list pattern and
      becomes a paragraph holding the line verbatim. */
  lemma BlankLine(children: seq<Node>, line: string)
    requires IsBlank(line) && line != ""
    ensures ApplyLine(children, line) == children + [Paragraph([Text(line)])]
  {
    NoBlock(line);
    LeadingWhitespaceIs(line, |line|);
    assert MatchBullet(line).None?;
    assert LeadingDigits(line[|line|..]) == 0;
    assert MatchOrdered(line).None?;
    ParagraphLine(children, line);
    PlainText(line);
  }

  /** Empty and blank input: the empty document, except that a single line of
      whitespace (no newline) of non-zero length becomes one paragraph holding
      that exact text. */
  lemma BlankInput(markdown: string)
    requires IsBlank(markdown)
    ensures Parse(markdown) ==
      if markdown != "" && '\n' !in markdown then Document([Paragraph([Text(markdown)])]) else Document([])
  {
    if markdown != "" {
      var lines := Split(markdown);
      SplitBlank(markdown);
      SplitSingle(markdown);
      if '\n' !in markdown {
        assert lines == [markdown] && lines[..0] == [];
        assert Blocks(lines) == ApplyLine([], markdown);
        BlankLine([], markdown);
      }
    }
  }

  /** A heading line: 1 to 6 `#`, one whitespace character, and the rest of
      the line as inline content; the level is the number of `#`. */
  lemma HeadingLine(children: seq<Node>, line: string, n: nat)
    requires HeadingPrefix(line, n)
    ensures ApplyLine(children, line) == children + [Heading(n, Inline(LineContent(line[n + 1..])))]
  {
    CountLeadingIs(line, '#', n);
    ApplyLineCases(children, line);
    BlockNodeCases(line);
  }

  /** `#NoSpace` is no heading: the hashes need a whitespace character after them. */
  lemma NoSpaceExample(children: seq<Node>)
    ensures ApplyLine(children, "#NoSpace") == children + [Paragraph([Text("#NoSpace")])]
  {
    var a := "#NoSpace";
    CountLeadingIs(a, '#', 1);
    NoPatternNoDigits(a);
    ParagraphLine(children, a);
    NoSpacePlain();
  }

  /** Seven hashes are no heading: the pattern allows at most six. */
  lemma SevenHashesExample(children: seq<Node>)
    ensures ApplyLine(children, "####### x") == children + [Paragraph([Text("####### x")])]
  {
    var b := "####### x";
    CountLeadingIs(b, '#', 7);
    NoPatternNoDigits(b);
    ParagraphLine(children, b);
    SevenHashesPlain();
  }

  lemma NoSpacePlain()
    ensures Inline("#NoSpace") == [Text("#NoSpace")]
  {
    PlainText("#NoSpace");
  }

  lemma SevenHashesPlain()
    ensures Inline("####### x") == [Text("####### x")]
  {
    PlainText("####### x");
  }

  /** A line opening with `#` and no heading prefix matches no pattern at all. */
  lemma NoPatternNoDigits(line: string)
    requires |line| > 0 && line[0] == '#' && MatchHeading(line).None?
    ensures BlockNode(line).None? && ListEntry(line).None?
  {
    BlockNodeCases(line);
    LeadingWhitespaceIs(line, 0);
    LeadingDigitsIs(line, 0);
    assert line[0..] == line;
  }

  /** A quote line: `>` and one whitespace character. */
  lemma QuoteLine(children: seq<Node>, line: string)
    requires QuotePrefix(line)
    ensures ApplyLine(children, line) == children + [Quote(Inline(LineContent(line[2..])))]
  {
    CountLeadingIs(line, '#', 0);
    ApplyLineCases(children, line);
    BlockNodeCases(line);
  }

  /** A block link line `[text](url)`: the lazy groups pick the earliest `](`
      and then the earliest `)`; anything after that `)` is dropped, and the
      link has no title. */
  lemma LinkLine(children: seq<Node>, line: string, close: nat, end: nat)
    requires LinkAt(line, close, end)
    ensures exists c: nat, e: nat ::
      (&& LinkAt(line, c, e) && c <= close
       && (forall c': nat, e': nat :: LinkAt(line, c', e') ==> c < c' || (c == c' && e <= e'))
       && ApplyLine(children, line) == children + [Link(line[c + 2..e], "", Inline(line[1..c]))])
  {
    CountLeadingIs(line, '#', 0);
    ApplyLineCases(children, line);
    BlockNodeCases(line);
    var m := MatchLink(line);
    var c := |m.value.content| + 1;
    var e := c + 2 + |m.value.url|;
    assert LinkAt(line, c, e);
  }

  /** A bullet line, after any leading whitespace `-` and one whitespace
      character, adds a `list-item` to the last list or opens a list. */
  lemma BulletLine(children: seq<Node>, line: string, w: nat)
    requires BulletPrefix(line, w)
    ensures ApplyLine(children, line)
      == AppendListItem(children, Bullet, ListItem(Inline(LineContent(line[w + 2..]))))
  {
    assert w > 0 ==> IsWhitespace(line[0]);
    NoBlock(line);
    BulletMatchIs(line, w);
    ApplyLineCases(children, line);
  }

  /** An ordered line, after any leading whitespace digits, `.` and one
      whitespace character, adds an `ordered-list-item` to the last ordered
      list or opens one. */
  lemma OrderedLine(children: seq<Node>, line: string, w: nat, d: nat)
    requires OrderedPrefix(line, w, d)
    ensures ApplyLine(children, line)
      == AppendListItem(children, Ordered, OrderedListItem(Inline(LineContent(line[w + d + 2..]))))
  {
    assert w > 0 ==> IsWhitespace(line[0]);
    assert w == 0 ==> IsDigit(line[0]);
    NoBlock(line);
    OrderedMatchIs(line, w, d);
    ApplyLineCases(children, line);
  }

  /** The inline parse of a one-letter item. */
  lemma LetterItem(line: string, w: nat, letter: char)
    requires w + 3 == |line| && line[w + 2] == letter && letter != '*' && letter != '~' && !IsLineTerminator(letter)
    ensures Inline(LineContent(line[w + 2..])) == [Text([letter])]
  {
    assert line[w + 2..] == [letter];
    assert LineContent([letter]) == [letter] by {
      assert [letter][1..] == [];
    }
    PlainText([letter]);
  }

  /** A single bullet line opens a list. */
  lemma OneBulletExample()
    ensures Blocks(["- a"]) == [List([ListItem([Text("a")])])]
  {
    assert ["- a"][..0] == [];
    BulletLine([], "- a", 0);
    LetterItem("- a", 0, 'a');
  }

  /** Consecutive bullet lines merge into one list. */
  lemma ListMergeExample()
    ensures Blocks(["- a", "- b"]) == [List([ListItem([Text("a")]), ListItem([Text("b")])])]
  {
    var lines := ["- a", "- b"];
    assert lines[..1] == ["- a"];
    OneBulletExample();
    var first := [List([ListItem([Text("a")])])];
    BulletLine(first, "- b", 0);
    LetterItem("- b", 0, 'b');
    assert Blocks(lines) == ApplyLine(first, "- b");
    assert [ListItem([Text("a")])] + [ListItem([Text("b")])] == [ListItem([Text("a")]), ListItem([Text("b")])];
  }

  /** The whole input `- a`, newline, `- b` parses to one list of two items. */
  lemma ListMergeDocument(markdown: string)
    requires markdown == "- a\n- b"
    ensures Parse(markdown) == Document([List([ListItem([Text("a")]), ListItem([Text("b")])])])
  {
    var lines := ["- a", "- b"];
    assert Join(lines) == "- a" + "\n" + "- b";
    assert markdown == Join(lines);
    assert forall j, k :: 0 <= j < |lines| && 0 <= k < |lines[j]| ==> lines[j][k] != '\n';
    SplitJoin(lines);
    assert !IsWhitespace(lines[0][0]);
    ListMergeExample();
  }

  /** A bullet item never joins an ordered list, nor the other way round. */
  lemma MixedListsExample()
    ensures Blocks(["- a", "1. b"]) == [List([ListItem([Text("a")])]), OrderedList([OrderedListItem([Text("b")])])]
  {
    var lines := ["- a", "1. b"];
    assert lines[..1] == ["- a"];
    OneBulletExample();
    var first := [List([ListItem([Text("a")])])];
    assert OrderedPrefix("1. b", 0, 1);
    OrderedLine(first, "1. b", 0, 1);
    LetterItem("1. b", 1, 'b');
    assert Blocks(lines) == ApplyLine(first, "1. b");
  }

  /** A single ordered line opens an ordered list. */
  lemma OneOrderedSteps(line: string)
    requires line == "1. a"
    ensures Blocks([line]) == [OrderedList([OrderedListItem([Text("a")])])]
  {
    assert [line][..0] == [];
    assert OrderedPrefix(line, 0, 1);
    OrderedLine([], line, 0, 1);
    LetterItem(line, 1, 'a');
  }

  lemma BrokenListSteps(lines: seq<string>)
    requires lines == ["1. a", "", "2. b"]
    ensures Blocks(lines)
      == [OrderedList([OrderedListItem([Text("a")])]), LineBreak, OrderedList([OrderedListItem([Text("b")])])]
  {
    var first := [OrderedList([OrderedListItem([Text("a")])])];
    OneOrderedSteps(lines[0]);
    assert lines[..2][..1] == [lines[0]];
    OneEffect(first, lines[1]);
    assert Blocks(lines[..2]) == first + [LineBreak];
    var last := lines[2];
    assert OrderedPrefix(last, 0, 1);
    OrderedLine(first + [LineBreak], last, 0, 1);
    LetterItem(last, 1, 'b');
  }

  /** An empty line between items ends the list: the next item opens a new one. */
  lemma BrokenListExample()
    ensures Blocks(["1. a", "", "2. b"])
      == [OrderedList([OrderedListItem([Text("a")])]), LineBreak, OrderedList([OrderedListItem([Text("b")])])]
  {
    BrokenListSteps(["1. a", "", "2. b"]);
  }
}
