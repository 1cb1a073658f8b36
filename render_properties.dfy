/** What `renderMarkdown` promises: children in order between fixed tags,
    decimal heading levels, escaped text and attribute values, attributes only
    when present, the empty string for unknown types, and, together with the
    inline parser, markup whose text can never close an attribute. */
module RenderProperties {
  import opened Syntax
  import opened HtmlEscape
  import opened Renderer
  import opened InlineScanner
  import opened InlineProperties

  /** The children's renderings concatenated in order. */
  function Joined(children: seq<Node>): string {
    if children == [] then "" else Render(children[0]) + Joined(children[1..])
  }

  lemma {:induction false} JoinedAppend(a: seq<Node>, b: seq<Node>)
    ensures Joined(a + b) == Joined(a) + Joined(b)
  {
    if a == [] {
      assert a + b == b;
    } else {
      var ab := a + b;
      assert ab[0] == a[0] && ab[1..] == a[1..] + b;
      JoinedAppend(a[1..], b);
      assert Joined(ab) == Render(a[0]) + Joined(a[1..] + b);
    }
  }

  /** The `reduce` in `renderChildElements` concatenates the children's
      renderings in order. */
  lemma {:induction false} RenderChildrenJoined(children: seq<Node>)
    ensures RenderChildren(children) == Joined(children)
  {
    if children != [] {
      var front := children[..|children| - 1];
      var last := children[|children| - 1];
      RenderChildrenJoined(front);
      JoinedAppend(front, [last]);
      assert front + [last] == children;
      assert Joined([last]) == Render(last) by {
        assert [last][1..] == [];
      }
    }
  }

  /** The open and close tags of each element that wraps its children. */
  function Tags(n: Node): (string, string) {
    match n
    case Div(_) => ("<div>", "</div>")
    case Emphasis(_) => ("<em>", "</em>")
    case Strong(_) => ("<strong>", "</strong>")
    case Strikethrough(_) => ("<del>", "</del>")
    case Quote(_) => ("<blockquote><p>", "</p></blockquote>")
    case List(_) => ("<ul>", "</ul>")
    case ListItem(_) => ("<li>", "</li>")
    case OrderedList(_) => ("<ol>", "</ol>")
    case OrderedListItem(_) => ("<li>", "</li>")
    case Paragraph(_) => ("<p>", "</p>")
    case _ => ("", "")
  }

  predicate IsWrapper(n: Node) {
    n.Div? || n.Emphasis? || n.Strong? || n.Strikethrough? || n.Quote? || n.List?
    || n.ListItem? || n.OrderedList? || n.OrderedListItem? || n.Paragraph?
  }

  /** A document renders to its children's renderings in order (so an empty
      document renders to the empty string); every other container renders
      to its fixed open tag, that concatenation and its close tag. */
  lemma ContainerRendering(n: Node)
    requires n.Document? || IsWrapper(n)
    ensures n.Document? ==> Render(n) == Joined(n.children)
    ensures IsWrapper(n) ==> Render(n) == Tags(n).0 + Joined(n.children) + Tags(n).1
  {
    RenderChildrenJoined(n.children);
  }

  /** A heading renders as `<hN>` and `</hN>` around its children, N being
      the level written in decimal; for the levels 1 to 6 the parser
      produces, that is one digit. */
  lemma HeadingRendering(level: nat, children: seq<Node>)
    ensures Render(Heading(level, children)) == "<h" + Decimal(level) + ">" + Joined(children) + "</h" + Decimal(level) + ">"
    ensures DecimalValue(Decimal(level)) == level
    ensures 1 <= level <= 6 ==> Decimal(level) == [('0' as int + level) as char]
  {
    RenderChildrenJoined(children);
    DecimalRoundTrip(level);
  }

  /** A text node renders as its escaped value: safe, decodable back to the
      value, and unchanged when it has no special character. */
  lemma TextRendering(value: string)
    ensures Render(Text(value)) == EscapeEach(value)
    ensures SafeText(Render(Text(value)))
    ensures Unescape(Render(Text(value))) == value
    ensures (forall k :: 0 <= k < |value| ==> !IsSpecial(value[k])) ==> Render(Text(value)) == value
  {
    EscapeHtmlIsPerChar(value);
    EscapeSafe(value);
    UnescapeEscape(value);
    if forall k :: 0 <= k < |value| ==> !IsSpecial(value[k]) {
      EscapePlain(value);
    }
  }

  /** A type the table does not have, and that is not inherited from
      `Object.prototype`, renders as the empty string, whatever its children. */
  lemma UnknownRendering(typeName: string, children: seq<Node>)
    requires typeName !in TableKeys && typeName !in InheritedKeys
    ensures Render(Unknown(typeName, children)) == ""
  {
  }

  /** No `"` in s. */
  predicate NoQuote(s: string) {
    forall k :: 0 <= k < |s| ==> s[k] != '"'
  }

  /** An attribute is written only when its value is not empty, and the value
      is escaped, so it can never close its own quotes. */
  lemma AttributeRendering(value: string)
    ensures TitleAttribute(value) == "" <==> value == ""
    ensures LanguageAttribute(value) == "" <==> value == ""
    ensures value != "" ==> TitleAttribute(value) == " title=\"" + EscapeHtml(value) + "\""
    ensures value != "" ==> LanguageAttribute(value) == " class=\"language-" + EscapeHtml(value) + "\""
    ensures NoQuote(EscapeHtml(value))
  {
    EscapeSafe(value);
  }

  /** A link with no title, as the parser makes them, has only its `href`. */
  lemma UntitledLinkRendering(url: string, children: seq<Node>)
    ensures Render(Link(url, "", children)) == "<a href=\"" + EscapeHtml(url) + "\">" + Joined(children) + "</a>"
  {
    RenderChildrenJoined(children);
  }

  lemma NoQuoteAppend(a: string, b: string)
    requires NoQuote(a) && NoQuote(b)
    ensures NoQuote(a + b)
  {
    assert forall k :: |a| <= k < |a + b| ==> (a + b)[k] == b[k - |a|];
  }

  /** The rendering of well-formed inline nodes has no `"`: text is escaped and
      the tags of the three spans have none. */
  lemma {:induction false} InlineNodeNoQuote(n: Node)
    requires WellFormedNode(n)
    ensures NoQuote(Render(n))
    decreases n, 0
  {
    if n.Text? {
      EscapeSafe(n.value);
    } else {
      InlineListNoQuote(n.children);
      var inner := RenderChildren(n.children);
      var tags := Tags(n);
      assert NoQuote(tags.0) && NoQuote(tags.1);
      NoQuoteAppend(tags.0, inner);
      NoQuoteAppend(tags.0 + inner, tags.1);
    }
  }

  lemma {:induction false} InlineListNoQuote(nodes: seq<Node>)
    requires WellFormedInline(nodes)
    ensures NoQuote(RenderChildren(nodes))
    decreases nodes, 1
  {
    if nodes != [] {
      var front := nodes[..|nodes| - 1];
      assert WellFormedInline(front);
      InlineListNoQuote(front);
      InlineNodeNoQuote(nodes[|nodes| - 1]);
      NoQuoteAppend(RenderChildren(front), Render(nodes[|nodes| - 1]));
    }
  }

  /** Whatever the input line, the rendered inline markup has no `"`, so it
      can never end an attribute value it is placed in. */
  lemma InlineRenderingNoQuote(text: string)
    ensures NoQuote(RenderChildren(Inline(text)))
  {
    InlineWellFormed(text);
    InlineListNoQuote(Inline(text));
  }

  /** Text without delimiters renders as its escaped self. */
  lemma PlainInlineRendering(text: string)
    requires '*' !in text && '~' !in text
    ensures RenderChildren(Inline(text)) == EscapeHtml(text)
  {
    PlainText(text);
    if text != "" {
      var nodes := [Text(text)];
      assert nodes[..0] == [];
      assert RenderChildren(nodes) == RenderChildren([]) + Render(Text(text));
    }
  }

  lemma EscapeEachThree(a: char, b: char, c: char)
    ensures EscapeEach([a, b, c]) == EscapeChar(a) + EscapeChar(b) + EscapeChar(c)
  {
    var s := [a, b, c];
    assert s[1..] == [b, c] && s[1..][1..] == [c] && s[1..][1..][1..] == [];
    assert EscapeEach([c]) == EscapeChar(c);
    assert EscapeEach([b, c]) == EscapeChar(b) + EscapeChar(c);
  }

  lemma EscapeTagSteps(s: string)
    requires s == "<b>"
    ensures EscapeHtml(s) == "&lt;b&gt;"
  {
    EscapeHtmlIsPerChar(s);
    assert s == ['<', 'b', '>'];
    EscapeEachThree('<', 'b', '>');
    assert EscapeChar('<') + EscapeChar('b') + EscapeChar('>') == "&lt;" + "b" + "&gt;";
  }

  lemma TagHasNoDelimiters(s: string)
    requires s == "<b>"
    ensures '*' !in s && '~' !in s
  {
    assert forall k :: 0 <= k < |s| ==> s[k] != '*' && s[k] != '~';
  }

  lemma ParagraphRendering(children: seq<Node>)
    ensures Render(Paragraph(children)) == "<p>" + RenderChildren(children) + "</p>"
  {
  }

  lemma ScriptSteps(s: string)
    requires s == "<b>"
    ensures Render(Paragraph(Inline(s))) == "<p>&lt;b&gt;</p>"
  {
    var nodes := Inline(s);
    TagHasNoDelimiters(s);
    PlainInlineRendering(s);
    EscapeTagSteps(s);
    ParagraphRendering(nodes);
    assert "<p>" + "&lt;b&gt;" + "</p>" == "<p>&lt;b&gt;</p>";
  }

  /** Markup typed as text comes out escaped. */
  lemma ScriptExample()
    ensures Render(Paragraph(Inline("<b>"))) == "<p>&lt;b&gt;</p>"
  {
    ScriptSteps("<b>");
  }
}
