/** What the inline scan promises: it loses no character of its input, the
    node list it returns has a fixed shape, backslash escapes and the
    delimiter tie-breaks behave as the loop in lib/parser.js decides. */
module InlineProperties {
  import opened CharClasses
  import opened Syntax
  import opened InlineScanner

  /** The text an inline node was scanned from: its own characters, or its
      children between two copies of the delimiter. */
  function Source(n: Node): string {
    match n
    case Text(value) => value
    case Strikethrough(children) => "~~" + SourceOf(children) + "~~"
    case Strong(children) => "**" + SourceOf(children) + "**"
    case Emphasis(children) => "*" + SourceOf(children) + "*"
    case _ => ""
  }

  function SourceOf(nodes: seq<Node>): string {
    if nodes == [] then "" else Source(nodes[0]) + SourceOf(nodes[1..])
  }

  lemma SourceOfAppend(a: seq<Node>, b: seq<Node>)
    ensures SourceOf(a + b) == SourceOf(a) + SourceOf(b)
  {
    if a == [] {
      assert a + b == b;
    } else {
      assert (a + b)[0] == a[0];
      assert (a + b)[1..] == a[1..] + b;
      SourceOfAppend(a[1..], b);
    }
  }

  lemma SourceOfWrap(span: Span, children: seq<Node>)
    ensures Source(Wrap(span, children)) == Marker(span) + SourceOf(children) + Marker(span)
  {
  }

  /** A span token at index i: its markers sit right around its content and
      its children are the scan of that content. */
  ghost predicate DelimitedShape(text: string, i: nat, t: Token)
    requires t.Delimited?
  {
    && i + |Marker(t.span)| == t.innerStart < t.innerEnd
    && t.next == t.innerEnd + |Marker(t.span)| <= |text|
    && text[i..t.innerStart] == Marker(t.span)
    && text[t.innerEnd..t.next] == Marker(t.span)
    && t.children == Inline(text[t.innerStart..t.innerEnd])
  }

  /** What one step of the scan reads: a span's markers sit right around its
      content and its children are the scan of that content; a literal step
      reads one, two or four characters. */
  lemma TokenShape(text: string, i: nat)
    requires i < |text|
    ensures NextToken(text, i).Literal? ==> NextToken(text, i).width in {1, 2, 4}
    ensures NextToken(text, i).Delimited? ==> DelimitedShape(text, i, NextToken(text, i))
  {
    var c := text[i];
    if c == '\\' && i + 1 < |text| {
    } else if c == '*' && i + 3 < |text| && text[i + 1] == '*' && text[i + 2] == '*' && text[i + 3] == '*' {
    } else if c == '~' && i + 1 < |text| && text[i + 1] == '~' {
      StrikeShape(text, i);
    } else if c == '*' && i + 1 < |text| && text[i + 1] == '*' {
      StrongShape(text, i);
    } else if c == '*' {
      EmphasisShape(text, i);
    } else {
      OrdinaryToken(text, i);
    }
  }

  lemma DoubleSlice(text: string, c: char, k: int)
    requires DoubleAt(text, c, k)
    ensures text[k..k + 2] == [c, c]
  {
  }

  lemma SingleSlice(text: string, c: char, k: nat)
    requires k < |text| && text[k] == c
    ensures text[k..k + 1] == [c]
  {
  }

  lemma StrikeShape(text: string, i: nat)
    requires i + 1 < |text| && text[i] == '~' && text[i + 1] == '~'
    ensures NextToken(text, i).Delimited? ==> DelimitedShape(text, i, NextToken(text, i))
  {
    StrikeToken(text, i);
    var endIndex := IndexOfDouble(text, '~', i + 2);
    if endIndex != -1 && endIndex > i + 2 {
      DoubleSlice(text, '~', i);
      DoubleSlice(text, '~', endIndex);
    }
  }

  lemma StrongShape(text: string, i: nat)
    requires i + 1 < |text| && text[i] == '*' && text[i + 1] == '*'
    requires !(i + 3 < |text| && text[i + 2] == '*' && text[i + 3] == '*')
    ensures NextToken(text, i).Delimited? ==> DelimitedShape(text, i, NextToken(text, i))
  {
    StrongToken(text, i);
    var endIndex := StrongCloser(text, i);
    if endIndex != -1 && endIndex > i + 2 {
      DoubleSlice(text, '*', i);
      DoubleSlice(text, '*', endIndex);
    }
  }

  lemma EmphasisShape(text: string, i: nat)
    requires i < |text| && text[i] == '*' && !(i + 1 < |text| && text[i + 1] == '*')
    ensures NextToken(text, i).Delimited? ==> DelimitedShape(text, i, NextToken(text, i))
  {
    EmphasisToken(text, i);
    var endIndex := FirstEmphasisCloser(text, i, i + 1);
    if endIndex != -1 && endIndex > i + 1 {
      SingleSlice(text, '*', i);
      SingleSlice(text, '*', endIndex);
    }
  }

  /** The scan from index i returns nodes whose source is what was emitted,
      the pending text and the rest of the input, in order. */
  lemma {:induction false} ScanLossless(text: string, done: seq<Node>, pending: string, i: nat)
    requires i <= |text|
    ensures SourceOf(ScanFrom(text, done, pending, i)) == SourceOf(done) + pending + text[i..]
    decreases |text|, |text| - i
  {
    if i == |text| {
      FinalStep(text, done, pending);
      SourceOfAppend(done, Flush(pending));
      assert SourceOf(Flush(pending)) == pending;
    } else {
      TokenShape(text, i);
      var t := NextToken(text, i);
      if t.Literal? {
        LiteralStep(text, done, pending, i, t.width);
        ScanLossless(text, done, pending + text[i..i + t.width], i + t.width);
        LiteralSource(text, i, t.width, SourceOf(done), pending);
      } else {
        DelimitedStep(text, done, pending, i, t.span, t.innerStart, t.innerEnd, t.next, t.children);
        InnerLossless(text, t.innerStart, t.innerEnd);
        var emitted := done + Flush(pending) + [Wrap(t.span, t.children)];
        ScanLossless(text, emitted, "", t.next);
        EmittedSource(done, pending, t.span, t.children);
        SpanSource(text, i, t.innerStart, t.innerEnd, t.next, SourceOf(done), pending);
      }
    }
  }

  lemma LiteralSource(text: string, i: nat, width: nat, before: string, pending: string)
    requires i + width <= |text|
    ensures before + (pending + text[i..i + width]) + text[i + width..] == before + pending + text[i..]
  {
    assert text[i..] == text[i..i + width] + text[i + width..];
  }

  /** The string algebra of a span step: the emitted text, the markers, the
      content and the rest of the input add up to the rest from index i. */
  lemma SpanSource(text: string, i: nat, innerStart: nat, innerEnd: nat, next: nat, before: string, pending: string)
    requires i <= innerStart <= innerEnd <= next <= |text|
    ensures before + pending + text[i..innerStart] + text[innerStart..innerEnd] + text[innerEnd..next] + "" + text[next..]
      == before + pending + text[i..]
  {
    assert text[i..] == text[i..innerStart] + text[innerStart..innerEnd] + text[innerEnd..next] + text[next..];
  }

  lemma {:induction false} InnerLossless(text: string, innerStart: nat, innerEnd: nat)
    requires 0 < innerStart < innerEnd <= |text|
    ensures SourceOf(Inline(text[innerStart..innerEnd])) == text[innerStart..innerEnd]
    decreases |text|, 0
  {
    var content := text[innerStart..innerEnd];
    ScanLossless(content, [], "", 0);
    assert content[0..] == content;
  }

  lemma FlushSource(pending: string)
    ensures SourceOf(Flush(pending)) == pending
  {
    if pending != "" {
      assert Flush(pending)[1..] == [];
    }
  }

  lemma SingleSource(n: Node)
    ensures SourceOf([n]) == Source(n)
  {
    assert [n][1..] == [];
  }

  lemma EmittedSource(done: seq<Node>, pending: string, span: Span, children: seq<Node>)
    ensures SourceOf(done + Flush(pending) + [Wrap(span, children)])
      == SourceOf(done) + pending + Marker(span) + SourceOf(children) + Marker(span)
  {
    var f := Flush(pending);
    var w := Wrap(span, children);
    SourceOfAppend(done + f, [w]);
    SourceOfAppend(done, f);
    FlushSource(pending);
    SingleSource(w);
    SourceOfWrap(span, children);
  }

  /** `parseInlineFormatting` is lossless: putting every delimiter back around
      its children gives the input text again. */
  lemma InlineLossless(text: string)
    ensures SourceOf(Inline(text)) == text
  {
    ScanLossless(text, [], "", 0);
    assert text[0..] == text;
  }

  /** The shape every inline node list has: text nodes are never empty and
      never adjacent, and every span has at least one child. */
  predicate WellFormedNode(n: Node) {
    match n
    case Text(value) => value != ""
    case Strikethrough(children) => children != [] && WellFormedInline(children)
    case Strong(children) => children != [] && WellFormedInline(children)
    case Emphasis(children) => children != [] && WellFormedInline(children)
    case _ => false
  }

  predicate WellFormedInline(nodes: seq<Node>) {
    && (forall k :: 0 <= k < |nodes| ==> WellFormedNode(nodes[k]))
    && (forall k :: 0 < k < |nodes| ==> !(nodes[k - 1].Text? && nodes[k].Text?))
  }

  /** The nodes emitted so far never end in a text node: text is only emitted
      just before a span or at the very end. */
  predicate EndsOutsideText(nodes: seq<Node>) {
    nodes == [] || !nodes[|nodes| - 1].Text?
  }

  lemma FlushWellFormed(done: seq<Node>, pending: string)
    requires WellFormedInline(done) && EndsOutsideText(done)
    ensures WellFormedInline(done + Flush(pending))
  {
  }

  lemma SpanWellFormed(done: seq<Node>, pending: string, node: Node)
    requires WellFormedInline(done) && EndsOutsideText(done)
    requires WellFormedNode(node) && !node.Text?
    ensures WellFormedInline(done + Flush(pending) + [node])
    ensures EndsOutsideText(done + Flush(pending) + [node])
  {
    var front := done + Flush(pending);
    FlushWellFormed(done, pending);
    assert forall k :: 0 <= k < |front| ==> (front + [node])[k] == front[k];
  }

  lemma {:induction false} ScanWellFormed(text: string, done: seq<Node>, pending: string, i: nat)
    requires i <= |text|
    requires WellFormedInline(done) && EndsOutsideText(done)
    ensures WellFormedInline(ScanFrom(text, done, pending, i))
    decreases |text|, 2, |text| - i
  {
    if i == |text| {
      FinalStep(text, done, pending);
      FlushWellFormed(done, pending);
    } else {
      var t := NextToken(text, i);
      if t.Literal? {
        LiteralStep(text, done, pending, i, t.width);
        ScanWellFormed(text, done, pending + text[i..i + t.width], i + t.width);
      } else {
        var node := Wrap(t.span, t.children);
        DelimitedStep(text, done, pending, i, t.span, t.innerStart, t.innerEnd, t.next, t.children);
        SpanNodeWellFormed(text, i);
        SpanWellFormed(done, pending, node);
        ScanWellFormed(text, done + Flush(pending) + [node], "", t.next);
      }
    }
  }

  /** The span emitted at index i has well-formed, non-empty children. */
  lemma {:induction false} SpanNodeWellFormed(text: string, i: nat)
    requires i < |text| && NextToken(text, i).Delimited?
    ensures var t := NextToken(text, i);
      WellFormedNode(Wrap(t.span, t.children)) && !Wrap(t.span, t.children).Text?
    decreases |text|, 1
  {
    TokenShape(text, i);
    var t := NextToken(text, i);
    InnerLossless(text, t.innerStart, t.innerEnd);
    InnerWellFormed(text, t.innerStart, t.innerEnd);
    assert SourceOf([]) == "";
  }

  lemma {:induction false} InnerWellFormed(text: string, innerStart: nat, innerEnd: nat)
    requires 0 < innerStart < innerEnd <= |text|
    ensures WellFormedInline(Inline(text[innerStart..innerEnd]))
    decreases |text|, 0
  {
    ScanWellFormed(text[innerStart..innerEnd], [], "", 0);
  }

  /** The result of `parseInlineFormatting` is well formed, and it is empty
      exactly when its input is. */
  lemma InlineWellFormed(text: string)
    ensures WellFormedInline(Inline(text))
    ensures Inline(text) == [] <==> text == ""
  {
    ScanWellFormed(text, [], "", 0);
    InlineLossless(text);
    if text == "" {
      FinalStep(text, [], "");
    }
  }

  /** A backslash keeps the next character with it when that character is
      escapable, so the pair stays in the text verbatim and never opens a
      span; before any other character, or at the end, it is ordinary text. */
  lemma BackslashToken(text: string, i: nat)
    requires i < |text| && text[i] == '\\'
    ensures NextToken(text, i) == if i + 1 < |text| && text[i + 1] in EscapableChars then Literal(2) else Literal(1)
  {
    if i + 1 < |text| && text[i + 1] in EscapableChars {
      EscapeToken(text, i);
    } else {
      OrdinaryToken(text, i);
    }
  }

  /** A `~~` stays literal exactly when no `~~` follows it, or the next one
      starts right after it (a span needs content). */
  lemma StrikeLiteralIff(text: string, i: nat)
    requires i + 1 < |text| && text[i] == '~' && text[i + 1] == '~'
    ensures NextToken(text, i) == Literal(2)
      <==> DoubleAt(text, '~', i + 2) || forall k :: i + 2 <= k ==> !DoubleAt(text, '~', k)
  {
    StrikeToken(text, i);
  }

  /** A `**` (not part of `****`) stays literal exactly when no `**` follows it. */
  lemma StrongLiteralIff(text: string, i: nat)
    requires i + 1 < |text| && text[i] == '*' && text[i + 1] == '*'
    requires !(i + 3 < |text| && text[i + 2] == '*' && text[i + 3] == '*')
    ensures NextToken(text, i) == Literal(2) <==> forall k :: i + 2 <= k ==> !DoubleAt(text, '*', k)
  {
    StrongToken(text, i);
    var r := StrongCloser(text, i);
    if r != -1 {
      assert r != i + 2;
    }
  }

  /** A single `*` stays literal exactly when no valid closer follows it. */
  lemma EmphasisLiteralIff(text: string, i: nat)
    requires i < |text| && text[i] == '*' && !(i + 1 < |text| && text[i + 1] == '*')
    ensures NextToken(text, i) == Literal(1) <==> forall k :: i + 1 <= k < |text| ==> !IsEmphasisCloser(text, i, k)
  {
    EmphasisToken(text, i);
    var r := FirstEmphasisCloser(text, i, i + 1);
    if r != -1 {
      assert r != i + 1;
    }
  }

  lemma PendingSource(text: string, pending: string, i: nat, width: nat)
    requires i + width <= |text|
    ensures pending + text[i..i + width] + text[i + width..] == pending + text[i..]
  {
    assert text[i..i + width] + text[i + width..] == text[i..];
  }

  /** Text with no `*` and no `~` comes back as one text node (or nothing when
      empty), backslashes included. */
  lemma {:induction false} PlainScan(text: string, pending: string, i: nat)
    requires i <= |text|
    requires forall k :: 0 <= k < |text| ==> text[k] != '*' && text[k] != '~'
    ensures ScanFrom(text, [], pending, i) == Flush(pending + text[i..])
    decreases |text| - i
  {
    if i == |text| {
      FinalStep(text, [], pending);
      assert pending + text[i..] == pending;
    } else {
      if text[i] == '\\' {
        BackslashToken(text, i);
      } else {
        OrdinaryToken(text, i);
      }
      var width := NextToken(text, i).width;
      LiteralStep(text, [], pending, i, width);
      PlainScan(text, pending + text[i..i + width], i + width);
      PendingSource(text, pending, i, width);
    }
  }

  lemma PlainText(text: string)
    requires '*' !in text && '~' !in text
    ensures Inline(text) == if text == "" then [] else [Text(text)]
  {
    PlainScan(text, "", 0);
    assert "" + text[0..] == text;
  }

  /** `****` is kept as text. */
  lemma FourStarsExample()
    ensures Inline("****") == [Text("****")]
  {
    var t := "****";
    FourStarsStep(t, [], "", 0);
    assert "" + "****" == "****";
    FinalStep(t, [], "****");
  }

  /** `*a*` is emphasis. */
  lemma EmphasisExample()
    ensures Inline("*a*") == [Emphasis([Text("a")])]
  {
    var t := "*a*";
    EmphasisToken(t, 0);
    assert IsEmphasisCloser(t, 0, 2);
    assert FirstEmphasisCloser(t, 0, 1) == 2;
    assert t[1..2] == "a";
    PlainText("a");
    DelimitedStep(t, [], "", 0, EmphasisSpan, 1, 2, 3, [Text("a")]);
    FinalStep(t, [Emphasis([Text("a")])], "");
  }

  lemma EmphasisWordCloser(u: string)
    requires u == "*text*"
    ensures FirstEmphasisCloser(u, 0, 1) == 5
  {
    assert IsEmphasisCloser(u, 0, 5);
    assert forall k :: 1 <= k < 5 ==> u[k] != '*';
  }

  lemma TextIsPlain()
    ensures Inline("text") == [Text("text")]
  {
    PlainText("text");
  }

  lemma EmphasisWordHead(u: string)
    requires u == "*text*"
    ensures NextToken(u, 0) == Delimited(EmphasisSpan, 1, 5, 6, [Text("text")])
  {
    EmphasisWordCloser(u);
    assert u[1..5] == "text";
    TextIsPlain();
    EmphasisToken(u, 0);
  }

  /** `*text*` is emphasis. */
  lemma EmphasisWordExample()
    ensures Inline("*text*") == [Emphasis([Text("text")])]
  {
    var u := "*text*";
    EmphasisWordHead(u);
    DelimitedStep(u, [], "", 0, EmphasisSpan, 1, 5, 6, [Text("text")]);
    assert [] + Flush("") + [Emphasis([Text("text")])] == [Emphasis([Text("text")])];
    FinalStep(u, [Emphasis([Text("text")])], "");
  }

  /** In `***text***` the first `**` after the opener is at 7, but the content
      up to the next one, `*text*`, starts and ends with `*`, so the closer
      moves to 8. */
  lemma TripleStarsCloser(t: string)
    requires t == "***text***"
    ensures StrongCloser(t, 0) == 8
  {
    assert forall k :: 3 <= k < 7 ==> t[k] != '*';
    assert FirstDoubleAt(t, '*', 2, 7);
    assert FirstDoubleAt(t, '*', 8, 8);
    StrongCloserAbsorbs(t, 0, 7, 8);
  }

  /** A `**` at the start whose closer e leaves content between opens a
      strong span over that content. */
  lemma StrongHeadIs(t: string, e: int, children: seq<Node>)
    requires 1 < |t| && t[0] == '*' && t[1] == '*' && !(3 < |t| && t[2] == '*' && t[3] == '*')
    requires StrongCloser(t, 0) == e && e > 2 && Inline(t[2..e]) == children
    ensures NextToken(t, 0) == Delimited(StrongSpan, 2, e, e + 2, children)
  {
    StrongToken(t, 0);
  }

  lemma TripleStarsHead(t: string)
    requires t == "***text***"
    ensures NextToken(t, 0) == Delimited(StrongSpan, 2, 8, 10, [Emphasis([Text("text")])])
  {
    TripleStarsCloser(t);
    assert t[2..8] == "*text*";
    EmphasisWordExample();
    StrongHeadIs(t, 8, [Emphasis([Text("text")])]);
  }

  /** `***text***` is strong emphasis around emphasis. */
  lemma TripleStarsExample()
    ensures Inline("***text***") == [Strong([Emphasis([Text("text")])])]
  {
    var t := "***text***";
    TripleStarsHead(t);
    DelimitedStep(t, [], "", 0, StrongSpan, 2, 8, 10, [Emphasis([Text("text")])]);
    assert [] + Flush("") + [Strong([Emphasis([Text("text")])])] == [Strong([Emphasis([Text("text")])])];
    FinalStep(t, [Strong([Emphasis([Text("text")])])], "");
  }

  lemma BoldThenStarsClosers()
    ensures StrongCloser("**bold****", 0) == 6
    ensures StrongCloser("**bold****", 8) == -1
  {
    assert IndexOfDouble("**bold****", '*', 2) == 6;
  }

  /** `**bold****`: the first `**` after the opener closes it; the trailing
      `**` is text. */
  lemma BoldThenStarsExample()
    ensures Inline("**bold****") == [Strong([Text("bold")]), Text("**")]
  {
    var t := "**bold****";
    BoldThenStarsHead(t);
    DelimitedStep(t, [], "", 0, StrongSpan, 2, 6, 8, [Text("bold")]);
    assert [] + Flush("") + [Strong([Text("bold")])] == [Strong([Text("bold")])];
    BoldThenStarsTail([Strong([Text("bold")])]);
  }

  lemma BoldThenStarsHead(t: string)
    requires t == "**bold****"
    ensures NextToken(t, 0) == Delimited(StrongSpan, 2, 6, 8, [Text("bold")])
  {
    BoldThenStarsClosers();
    assert t[2..6] == "bold";
    BoldIsPlain();
    StrongHeadIs(t, 6, [Text("bold")]);
  }

  lemma BoldIsPlain()
    ensures Inline("bold") == [Text("bold")]
  {
    PlainText("bold");
  }

  lemma BoldThenStarsTail(done: seq<Node>)
    ensures ScanFrom("**bold****", done, "", 8) == done + [Text("**")]
  {
    var t := "**bold****";
    BoldThenStarsClosers();
    StrongToken(t, 8);
    PairStep(t, done, "", 8);
    assert "" + [t[8], t[9]] == "**";
    FinalStep(t, done, "**");
  }

  /** Unclosed and empty delimiters are text. */
  lemma UnclosedStrongExample()
    ensures Inline("**a") == [Text("**a")]
  {
    var t := "**a";
    StrongToken(t, 0);
    assert StrongCloser(t, 0) == -1;
    PairStep(t, [], "", 0);
    assert "" + [t[0], t[1]] == "**";
    OrdinaryToken(t, 2);
    PlainStep(t, [], "**", 2);
    assert "**" + [t[2]] == "**a";
    FinalStep(t, [], "**a");
  }

  lemma UnclosedEmphasisExample()
    ensures Inline("*a") == [Text("*a")]
  {
    var t := "*a";
    EmphasisToken(t, 0);
    assert FirstEmphasisCloser(t, 0, 1) == -1;
    PlainStep(t, [], "", 0);
    assert "" + [t[0]] == "*";
    OrdinaryToken(t, 1);
    PlainStep(t, [], "*", 1);
    assert "*" + [t[1]] == "*a";
    FinalStep(t, [], "*a");
  }

  lemma EmptyStrikethroughExample()
    ensures Inline("~~") == [Text("~~")]
  {
    var t := "~~";
    StrikeToken(t, 0);
    assert IndexOfDouble(t, '~', 2) == -1;
    PairStep(t, [], "", 0);
    assert "" + [t[0], t[1]] == "~~";
    FinalStep(t, [], "~~");
  }

  lemma DoubleStrikethroughExample()
    ensures Inline("~~~~") == [Text("~~~~")]
  {
    var u := "~~~~";
    StrikeToken(u, 0);
    assert IndexOfDouble(u, '~', 2) == 2;
    PairStep(u, [], "", 0);
    assert "" + [u[0], u[1]] == "~~";
    StrikeToken(u, 2);
    assert IndexOfDouble(u, '~', 4) == -1;
    PairStep(u, [], "~~", 2);
    assert "~~" + [u[2], u[3]] == "~~~~";
    FinalStep(u, [], "~~~~");
  }

  /** An escaped asterisk does not open emphasis, and the backslash stays. */
  lemma EscapedStarExample(t: string)
    requires t == "\\*a*"
    ensures Inline(t) == [Text("\\*a*")]
  {
    EscapeToken(t, 0);
    PairStep(t, [], "", 0);
    assert "" + [t[0], t[1]] == "\\*";
    OrdinaryToken(t, 2);
    PlainStep(t, [], "\\*", 2);
    assert "\\*" + [t[2]] == "\\*a";
    EmphasisToken(t, 3);
    assert FirstEmphasisCloser(t, 3, 4) == -1;
    PlainStep(t, [], "\\*a", 3);
    assert "\\*a" + [t[3]] == "\\*a*";
    FinalStep(t, [], "\\*a*");
  }
}
