/** `renderMarkdown`: the `renderFunctions` table as one function over the node
    types, `renderChildElements` as the left fold its `reduce` performs, and
    the decimal form template strings give to a heading level. */
module Renderer {
  import opened Syntax
  import opened HtmlEscape

  /** The digit character for 0 <= d < 10. */
  function DigitChar(d: nat): (c: char)
    requires d < 10
    ensures '0' <= c <= '9'
  {
    ('0' as int + d) as char
  }

  /** The decimal form of n, as `${n}` writes it. */
  function Decimal(n: nat): (s: string)
    ensures |s| >= 1
    ensures forall k :: 0 <= k < |s| ==> '0' <= s[k] <= '9'
  {
    if n < 10 then [DigitChar(n)] else Decimal(n / 10) + [DigitChar(n % 10)]
  }

  /** The number a string of decimal digits denotes. */
  function DecimalValue(s: string): nat
    requires forall k :: 0 <= k < |s| ==> '0' <= s[k] <= '9'
  {
    if s == [] then 0 else DecimalValue(s[..|s| - 1]) * 10 + (s[|s| - 1] as int - '0' as int)
  }

  /** Reading the decimal form back gives the number, and there is no leading zero. */
  lemma {:induction false} DecimalRoundTrip(n: nat)
    ensures DecimalValue(Decimal(n)) == n
    ensures n > 0 ==> Decimal(n)[0] != '0'
  {
    if n >= 10 {
      DecimalRoundTrip(n / 10);
      var s := Decimal(n);
      assert s[..|s| - 1] == Decimal(n / 10);
      assert s[0] == Decimal(n / 10)[0];
    }
  }

  /** `renderChildElements`: a left fold over the children that appends each
      child's rendering to the accumulated string, starting from the empty one. */
  function RenderChildren(children: seq<Node>): string
    decreases children
  {
    if children == [] then ""
    else RenderChildren(children[..|children| - 1]) + Render(children[|children| - 1])
  }

  function TitleAttribute(title: string): string {
    if title != "" then " title=\"" + EscapeHtml(title) + "\"" else ""
  }

  function LanguageAttribute(language: string): string {
    if language != "" then " class=\"language-" + EscapeHtml(language) + "\"" else ""
  }

  /** The `type` strings `renderFunctions` has an entry for. */
  const TableKeys: set<string> := {
    "document", "div", "line-break", "heading", "emphasis", "strong", "strikethrough",
    "quote", "link", "image", "list", "list-item", "ordered-list", "ordered-list-item",
    "horizontal-rule", "code-block", "code", "paragraph", "text"
  }

  /** The names an object literal inherits from `Object.prototype`: looking one
      of them up in the table finds a function that is no template, so such a
      type does not render as the empty string. The model leaves them out. */
  const InheritedKeys: set<string> := {
    "constructor", "__proto__", "toString", "toLocaleString", "valueOf", "hasOwnProperty",
    "isPrototypeOf", "propertyIsEnumerable", "__defineGetter__", "__defineSetter__",
    "__lookupGetter__", "__lookupSetter__"
  }

  /** `renderMarkdown`: the entry of `renderFunctions` for the node's type, or
      the empty string for a type the table does not have. */
  function Render(n: Node): string
    decreases n
  {
    match n
    case Document(children) => RenderChildren(children)
    case Div(children) => "<div>" + RenderChildren(children) + "</div>"
    case LineBreak => "<br>"
    case Heading(level, children) =>
      "<h" + Decimal(level) + ">" + RenderChildren(children) + "</h" + Decimal(level) + ">"
    case Emphasis(children) => "<em>" + RenderChildren(children) + "</em>"
    case Strong(children) => "<strong>" + RenderChildren(children) + "</strong>"
    case Strikethrough(children) => "<del>" + RenderChildren(children) + "</del>"
    case Quote(children) => "<blockquote><p>" + RenderChildren(children) + "</p></blockquote>"
    case Link(url, title, children) =>
      "<a href=\"" + EscapeHtml(url) + "\"" + TitleAttribute(title) + ">" + RenderChildren(children) + "</a>"
    case Image(src, alt, title) =>
      "<img src=\"" + EscapeHtml(src) + "\" alt=\"" + EscapeHtml(alt) + "\"" + TitleAttribute(title) + ">"
    case List(children) => "<ul>" + RenderChildren(children) + "</ul>"
    case ListItem(children) => "<li>" + RenderChildren(children) + "</li>"
    case OrderedList(children) => "<ol>" + RenderChildren(children) + "</ol>"
    case OrderedListItem(children) => "<li>" + RenderChildren(children) + "</li>"
    case HorizontalRule => "<hr>"
    case CodeBlock(language, value) =>
      "<pre><code" + LanguageAttribute(language) + ">" + EscapeHtml(value) + "</code></pre>"
    case Code(value) => "<code>" + EscapeHtml(value) + "</code>"
    case Paragraph(children) => "<p>" + RenderChildren(children) + "</p>"
    case Text(value) => EscapeHtml(value)
    case Unknown(_, _) => ""
  }
}
