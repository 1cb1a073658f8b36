/** The line dispatcher of `parseMarkdown`: each line goes through the handlers
    line-break, block pattern, list item and paragraph, in that order, and the
    first that accepts it appends to the document. The functions state what
    one line does to the document's children; the class DocumentBuilder and the
    method ParseMarkdown are the source's closures over the document and its
    loops, proved against them. */
module BlockParser {
  import opened CharClasses
  import opened Syntax
  import opened InlineScanner
  import opened LinePatterns

  /** The keys of `regexPatternsToNodeTypes`, in their enumeration order. */
  datatype PatternKey = HeadingKey | QuoteKey | LinkKey

  const PatternKeys: seq<PatternKey> := [HeadingKey, QuoteKey, LinkKey]

  function MatchPattern(key: PatternKey, line: string): Option<Captured> {
    match key
    case HeadingKey => MatchHeading(line)
    case QuoteKey => MatchQuote(line)
    case LinkKey => MatchLink(line)
  }

  /** The node a match produces, with its properties and the inline parse of its content. */
  function BuildNode(c: Captured, children: seq<Node>): Node {
    match c
    case HeadingCaptured(hashes, _) => Heading(hashes, children)
    case QuoteCaptured(_) => Quote(children)
    case LinkCaptured(_, url) => Link(url, "", children)
  }

  /** The first key from `keys` whose pattern matches the line. */
  function FirstMatch(line: string, keys: seq<PatternKey>): Option<Captured> {
    if keys == [] then None
    else match MatchPattern(keys[0], line)
      case Some(c) => Some(c)
      case None => FirstMatch(line, keys[1..])
  }

  /** What `createNodeFromLine` appends, if anything. */
  function BlockNode(line: string): Option<Node> {
    match FirstMatch(line, PatternKeys)
    case Some(c) => Some(BuildNode(c, Inline(c.content)))
    case None => None
  }

  /** The list item a line starts: the bullet pattern is tried first. */
  function ListEntry(line: string): Option<ListCaptured> {
    var bullet := MatchBullet(line);
    if bullet.Some? then bullet else MatchOrdered(line)
  }

  function ListNode(kind: ListKind, items: seq<Node>): Node {
    match kind
    case Bullet => List(items)
    case Ordered => OrderedList(items)
  }

  function ItemNode(kind: ListKind, children: seq<Node>): Node {
    match kind
    case Bullet => ListItem(children)
    case Ordered => OrderedListItem(children)
  }

  /** `prevSibling.type === listNodeType`. */
  predicate IsListOf(n: Node, kind: ListKind) {
    match kind
    case Bullet => n.List?
    case Ordered => n.OrderedList?
  }

  /** The merge step of `handleListItem`: the item joins the last child when
      that is a list of the same kind, and otherwise opens a new list. */
  function AppendListItem(children: seq<Node>, kind: ListKind, item: Node): (r: seq<Node>)
    ensures |children| > 0 && IsListOf(children[|children| - 1], kind) ==>
      |r| == |children| && r[..|r| - 1] == children[..|children| - 1]
      && r[|r| - 1] == ListNode(kind, children[|children| - 1].children + [item])
    ensures !(|children| > 0 && IsListOf(children[|children| - 1], kind)) ==>
      r == children + [ListNode(kind, [item])]
  {
    if |children| > 0 && IsListOf(children[|children| - 1], kind) then
      children[..|children| - 1] + [ListNode(kind, children[|children| - 1].children + [item])]
    else
      children + [ListNode(kind, [item])]
  }

  /** What `createTextNode` appends, if anything: a paragraph of the inline
      parse of the whole line, for a blank line of non-zero length as for any
      other non-blank line. */
  function ParagraphNode(line: string): Option<Node> {
    if IsBlank(line) && |line| > 0 then
      var children := Inline(line);
      if |children| > 0 then Some(Paragraph(children)) else None
    else if !IsBlank(line) then
      var children := Inline(line);
      if |children| > 0 then Some(Paragraph(children)) else None
    else None
  }

  /** The entries of the `handlers` array. */
  datatype Handler = LineBreakHandler | BlockHandler | ListHandler | TextHandler

  const Handlers: seq<Handler> := [LineBreakHandler, BlockHandler, ListHandler, TextHandler]

  /** The children after handler h accepts the line, or None when it declines. */
  function Handle(h: Handler, children: seq<Node>, line: string): Option<seq<Node>> {
    match h
    case LineBreakHandler =>
      if IsBlank(line) && |line| == 0 then Some(children + [LineBreak]) else None
    case BlockHandler =>
      if BlockNode(line).Some? then Some(children + [BlockNode(line).value]) else None
    case ListHandler =>
      var entry := ListEntry(line);
      if entry.Some? then Some(AppendListItem(children, entry.value.kind, ItemNode(entry.value.kind, Inline(entry.value.content)))) else None
    case TextHandler =>
      if ParagraphNode(line).Some? then Some(children + [ParagraphNode(line).value]) else None
  }

  /** The handlers from index j on, the first that accepts the line winning. */
  function HandleFrom(children: seq<Node>, line: string, j: nat): seq<Node>
    requires j <= |Handlers|
    decreases |Handlers| - j
  {
    if j == |Handlers| then children
    else match Handle(Handlers[j], children, line)
      case Some(r) => r
      case None => HandleFrom(children, line, j + 1)
  }

  /** The effect of one line on the document's children. */
  function ApplyLine(children: seq<Node>, line: string): seq<Node> {
    HandleFrom(children, line, 0)
  }

  /** The document's children after the given lines, in order. */
  function Blocks(lines: seq<string>): seq<Node> {
    if lines == [] then [] else ApplyLine(Blocks(lines[..|lines| - 1]), lines[|lines| - 1])
  }

  predicate AllBlank(lines: seq<string>) {
    forall k :: 0 <= k < |lines| ==> IsBlank(lines[k])
  }

  /** `parseMarkdown`: the empty document for empty input and for input whose
      lines are all blank, except a single blank line of non-zero length. */
  function Parse(markdown: string): Node {
    if markdown == "" then Document([])
    else
      var lines := Split(markdown);
      if AllBlank(lines) && !(|lines| == 1 && |lines[0]| > 0 && IsBlank(lines[0])) then Document([])
      else Document(Blocks(lines))
  }

  /** The document under construction; `currentParentNode` is always the
      document itself, so its children are the only state. */
  class DocumentBuilder {
    var children: seq<Node>

    constructor()
      ensures children == []
    {
      children := [];
    }

    /** `handleLineBreak`. */
    method HandleLineBreak(line: string) returns (handled: bool)
      modifies this
      ensures Handle(LineBreakHandler, old(children), line) == if handled then Some(children) else None
      ensures !handled ==> children == old(children)
    {
      if IsBlank(line) && |line| == 0 {
        children := children + [LineBreak];
        return true;
      }
      return false;
    }

    /** `createNodeFromLine`: the patterns are tried in key order. */
    method CreateNodeFromLine(line: string) returns (handled: bool)
      modifies this
      ensures Handle(BlockHandler, old(children), line) == if handled then Some(children) else None
      ensures !handled ==> children == old(children)
    {
      for k := 0 to |PatternKeys|
        invariant FirstMatch(line, PatternKeys) == FirstMatch(line, PatternKeys[k..])
        invariant children == old(children)
      {
        var matches := MatchPattern(PatternKeys[k], line);
        assert PatternKeys[k..][1..] == PatternKeys[k + 1..];
        if matches.Some? {
          var inlineChildren := ParseInline(matches.value.content);
          children := children + [BuildNode(matches.value, inlineChildren)];
          return true;
        }
      }
      return false;
    }

    /** `handleListItem`. The source pushes onto the last list's own children
        array; here the last child is replaced by the list with the item added. */
    method HandleListItem(line: string) returns (handled: bool)
      modifies this
      ensures Handle(ListHandler, old(children), line) == if handled then Some(children) else None
      ensures !handled ==> children == old(children)
    {
      var listItemMatch := MatchBullet(line);
      var orderedListItemMatch := MatchOrdered(line);
      var entry: ListCaptured;
      if listItemMatch.Some? {
        entry := listItemMatch.value;
      } else if orderedListItemMatch.Some? {
        entry := orderedListItemMatch.value;
      } else {
        return false;
      }
      var inlineChildren := ParseInline(entry.content);
      var listItemNode := ItemNode(entry.kind, inlineChildren);
      if |children| > 0 && IsListOf(children[|children| - 1], entry.kind) {
        var prevSibling := children[|children| - 1];
        children := children[..|children| - 1] + [ListNode(entry.kind, prevSibling.children + [listItemNode])];
      } else {
        children := children + [ListNode(entry.kind, [listItemNode])];
      }
      return true;
    }

    /** `createTextNode`. */
    method CreateTextNode(line: string) returns (handled: bool)
      modifies this
      ensures Handle(TextHandler, old(children), line) == if handled then Some(children) else None
      ensures !handled ==> children == old(children)
    {
      if IsBlank(line) && |line| > 0 {
        var inlineChildren := ParseInline(line);
        if |inlineChildren| > 0 {
          children := children + [Paragraph(inlineChildren)];
          return true;
        }
      } else if !IsBlank(line) {
        var inlineChildren := ParseInline(line);
        if |inlineChildren| > 0 {
          children := children + [Paragraph(inlineChildren)];
          return true;
        }
      }
      return false;
    }

    /** `handlers[j](line)`. */
    method RunHandler(h: Handler, line: string) returns (handled: bool)
      modifies this
      ensures Handle(h, old(children), line) == if handled then Some(children) else None
      ensures !handled ==> children == old(children)
    {
      match h
      case LineBreakHandler => handled := HandleLineBreak(line);
      case BlockHandler => handled := CreateNodeFromLine(line);
      case ListHandler => handled := HandleListItem(line);
      case TextHandler => handled := CreateTextNode(line);
    }

    /** The inner loop of the driver: the handlers in order until one accepts. */
    method ProcessLine(line: string)
      modifies this
      ensures children == ApplyLine(old(children), line)
    {
      for j := 0 to |Handlers|
        invariant children == old(children)
        invariant HandleFrom(children, line, j) == ApplyLine(old(children), line)
      {
        var handled := RunHandler(Handlers[j], line);
        if handled {
          return;
        }
      }
    }
  }

  /** `parseMarkdown`. */
  method ParseMarkdown(markdown: string) returns (doc: Node)
    ensures doc == Parse(markdown)
  {
    if markdown == "" {
      return Document([]);
    }
    var lines := Split(markdown);
    var lineCount := |lines|;

    var hasNonBlankLine := false;
    for i := 0 to lineCount
      invariant !hasNonBlankLine
      invariant AllBlank(lines[..i])
    {
      if !IsBlank(lines[i]) {
        hasNonBlankLine := true;
        break;
      }
      assert lines[..i + 1] == lines[..i] + [lines[i]];
    }
    assert hasNonBlankLine <==> !AllBlank(lines);

    if !hasNonBlankLine {
      if lineCount == 1 && |lines[0]| > 0 && IsBlank(lines[0]) {
        // A single line of whitespace goes on to become a paragraph.
      } else {
        return Document([]);
      }
    }

    var builder := new DocumentBuilder();
    for i := 0 to lineCount
      invariant builder.children == Blocks(lines[..i])
    {
      builder.ProcessLine(lines[i]);
      assert lines[..i + 1][..i] == lines[..i];
    }
    assert lines[..lineCount] == lines;
    return Document(builder.children);
  }
}
