# Markdown parser and HTML renderer, modelled in Dafny

This project models the two halves of a small Markdown-to-HTML converter.

- `parseMarkdown` (lib/parser.js) splits its input at `\n`. It dispatches each
  line to four handlers in a fixed order: line break, block pattern (heading,
  quote, link), list item, and paragraph. The first handler that accepts the
  line appends to the document tree.
- `parseInlineFormatting` scans a line's content once, from left to right. It
  recognises backslash escapes, a literal `****`, `~~strikethrough~~`,
  `**strong**` and `*emphasis*`.
- `renderMarkdown` (lib/renderer.js) turns the tree into HTML. It uses a table
  of per-type templates, and `escapeHtml` escapes text and attribute values.

Modules, one file each:

| file | module | what it holds |
|---|---|---|
| syntax.dfy | `Syntax` | the node types of the tree, as one datatype |
| char_classes.dfy | `CharClasses` | the regex classes `\s`, `\d` and the line terminators; the escapable set; the prefix counters behind the line patterns |
| line_patterns.dfy | `LinePatterns` | `split("\n")` and the five anchored line patterns, each as a matcher together with a predicate saying what its regex accepts |
| inline_scanner.dfy | `InlineScanner` | the inline scan: a step function `NextToken`, the whole result `Inline`, and the loop `ParseInline` proved to return it |
| inline_properties.dfy | `InlineProperties` | losslessness, shape of the result, and the worked examples |
| block_parser.dfy | `BlockParser` | the handlers, one line's effect `ApplyLine`, `Parse`, and the imperative `DocumentBuilder` and `ParseMarkdown` proved against them |
| block_properties.dfy | `BlockProperties` | one effect per line, each kind of line, the blank-input rules, list merging |
| html_escape.dfy | `HtmlEscape` | the five chained replacements, the per-character escape, safety, and decoding |
| renderer.dfy | `Renderer` | the template table as one function over the node types |
| render_properties.dfy | `RenderProperties` | what each template produces, and that inline markup cannot break out of an attribute |

The source's closures over `currentParentNode` are modelled as a class
`DocumentBuilder`, whose field `children` is the document's child list. Each
handler is a method of that class. Each method's contract ties it to the
function `Handle` for its handler: when the handler accepts the line, the new
children are `Handle(...)`'s value; when it declines, nothing changes. The
driver's nested loops are `ParseMarkdown`, which is proved to return
`Parse(markdown)`. The `while` loop of `parseInlineFormatting` is
`ParseInline`. Its invariant says that finishing the scan from the current
state gives `Inline(text)`.

## Model

| member | source | states |
|---|---|---|
| `BlockParser.ParseMarkdown` | lib/parser.js:21-288 | the driver returns the document `Parse(markdown)`: empty for empty input, empty when every line is blank, except one blank line of non-zero length; otherwise the children that the lines produce, in order |
| `BlockParser.DocumentBuilder.constructor` | lib/parser.js:45-46 | the document starts with no children |
| `BlockParser.DocumentBuilder.HandleLineBreak` | lib/parser.js:219-225 | accepts exactly the empty line and then appends a line break; declining changes nothing |
| `BlockParser.DocumentBuilder.CreateNodeFromLine` | lib/parser.js:227-244 | accepts a line when one of the heading, quote or link patterns matches (tried in key order) and appends that node; declining changes nothing |
| `BlockParser.DocumentBuilder.HandleListItem` | lib/parser.js:180-217 | accepts a bullet or ordered item line; the item goes into the last child when that is a list of the same kind, otherwise into a new list; declining changes nothing |
| `BlockParser.DocumentBuilder.CreateTextNode` | lib/parser.js:246-268 | accepts a non-empty line whose inline scan is non-empty and appends it as a paragraph; declining changes nothing |
| `BlockParser.DocumentBuilder.RunHandler` | lib/parser.js:270-275 | runs the handler at a given position of the handler array, with the same accept/decline contract |
| `BlockParser.DocumentBuilder.ProcessLine` | lib/parser.js:280-284 | the inner loop: the first handler that accepts the line decides the new children, `ApplyLine` |
| `BlockParser.AppendListItem` | lib/parser.js:204-215 | when the last child is a list of the item's kind, the item is appended to that list's children and the other children stay; otherwise a new one-item list is appended |
| `BlockParser.Parse` | lib/parser.js:21-43 | the definition of the document `parseMarkdown` returns; its properties are `BlankInput`, `ListMergeDocument` and, line by line, `OneEffect` |
| `BlockParser.Handle` | lib/parser.js:180-268 | the definition of what each of the four handlers appends, or None when it declines; the target of the handler methods' contracts |
| `BlockParser.ApplyLine` | lib/parser.js:270-285 | the definition of one line's effect, the first accepting handler winning; its properties are `ApplyLineCases` and `OneEffect` |
| `BlockParser.BlockNode` | lib/parser.js:227-244 | the definition of the node `createNodeFromLine` appends; its properties are `BlockNodeCases`, `NoBlock` and the per-pattern line lemmas |
| `BlockParser.ParagraphNode` | lib/parser.js:246-268 | the definition of the paragraph `createTextNode` appends; its properties are `ParagraphFallback` and `BlankLine` |
| `BlockProperties.ApplyLineCases` | lib/parser.js:270-285 | one line's effect, written as the handler chain: line break, then block pattern, then list item, then paragraph, then nothing |
| `BlockProperties.OneEffect` | lib/parser.js:277-285 | every line either appends exactly one node or grows the last list by exactly one item; an empty line appends a line break |
| `BlockProperties.ListEffect` | lib/parser.js:207-215 | a list item either appends a new list or grows the last child, which keeps its list type and gains one item at the end |
| `BlockProperties.BlocksLength` | lib/parser.js:277-285 | the document never has more children than the input has lines |
| `BlockProperties.BlankInput` | lib/parser.js:22-43 | blank input parses to the empty document, except a single blank line of non-zero length, which becomes one paragraph holding exactly that text |
| `BlockProperties.BlankLine` | lib/parser.js:248-257 | a non-empty blank line becomes a paragraph holding the line as its single text node |
| `BlockProperties.ParagraphLine` | lib/parser.js:246-268 | a non-empty line that matches no block or list pattern becomes a paragraph of its inline content |
| `BlockProperties.ParagraphFallback` | lib/parser.js:246-268 | the paragraph handler accepts every non-empty line, and the paragraph holds the line's inline content |
| `BlockProperties.NoBlock` | lib/parser.js:4-6 | a line that does not start with `#`, `>` or `[` matches no block pattern |
| `BlockProperties.HeadingLine` | lib/parser.js:4 | a line of 1 to 6 `#` and one whitespace character becomes a heading; its level is the number of `#`, and its children are the inline content of the rest of the line |
| `BlockProperties.NoSpaceExample` | lib/parser.js:4 | `#NoSpace` is a paragraph, not a heading |
| `BlockProperties.SevenHashesExample` | lib/parser.js:4 | `####### x` is a paragraph, not a heading |
| `BlockProperties.NoSpacePlain` | lib/parser.js:56-178 | `#NoSpace` scans to a single text node |
| `BlockProperties.SevenHashesPlain` | lib/parser.js:56-178 | `####### x` scans to a single text node |
| `BlockProperties.NoPatternNoDigits` | lib/parser.js:4-8 | a `#` line that is no heading matches no other block or list pattern either |
| `BlockProperties.QuoteLine` | lib/parser.js:5 | `>` and one whitespace character make a quote of the rest of the line |
| `BlockProperties.LinkLine` | lib/parser.js:6 | a line starting with `[text](url)` becomes a link with no title, built from the match whose `]` comes first and, for that `]`, whose `)` comes first, over every way the pattern fits |
| `BlockProperties.BulletLine` | lib/parser.js:7 | leading whitespace, `-` and one whitespace character make a list item that joins or opens a bulleted list |
| `BlockProperties.OrderedLine` | lib/parser.js:8 | leading whitespace, digits, `.` and one whitespace character make an ordered item that joins or opens an ordered list |
| `BlockProperties.LetterItem` | lib/parser.js:56-178 | the content of an item that is a single ordinary letter scans to that letter as text |
| `BlockProperties.OneBulletExample` | lib/parser.js:180-217 | `- a` gives a list of one item |
| `BlockProperties.ListMergeExample` | lib/parser.js:207-208 | two bullet lines make one list of two items |
| `BlockProperties.ListMergeDocument` | lib/parser.js:21-288 | the input `- a`, newline, `- b` parses to a document holding one list of two items |
| `BlockProperties.MixedListsExample` | lib/parser.js:207-215 | a bullet line then an ordered line make two separate lists |
| `BlockProperties.OneOrderedSteps` | lib/parser.js:180-217 | `1. a` gives an ordered list of one item |
| `BlockProperties.BrokenListSteps` | lib/parser.js:207-225 | an empty line between two ordered items ends the first list: the result is list, line break, list |
| `BlockProperties.BrokenListExample` | lib/parser.js:207-225 | the same, for the literal lines |
| `LinePatterns.Split` | lib/parser.js:26 | `split("\n")` always has at least one element |
| `LinePatterns.JoinSplit` | lib/parser.js:26 | joining the lines with `\n` gives the input back, and no line holds a `\n` |
| `LinePatterns.SplitBlank` | lib/parser.js:26-35 | every line of blank input is blank |
| `LinePatterns.SplitSingle` | lib/parser.js:26 | the input is one line exactly when it has no `\n` |
| `LinePatterns.SplitPrefix` | lib/parser.js:26 | text without a newline is glued to the first piece of what follows it |
| `LinePatterns.SplitJoin` | lib/parser.js:26 | splitting lines joined with `\n` gives the lines back, when none of them holds a newline |
| `LinePatterns.MatchHeading` | lib/parser.js:4 | matches exactly when the line has a heading prefix; the count of `#` and the content up to the first line terminator are captured |
| `LinePatterns.MatchQuote` | lib/parser.js:5 | matches exactly when the line starts with `>` and whitespace; the content up to the first line terminator is captured |
| `LinePatterns.CloseParen` | lib/parser.js:6 | the lazy `(.*?)\)`: the first `)` after `from` that is on the same line, or -1 when there is none |
| `LinePatterns.LinkClose` | lib/parser.js:6 | the lazy `(.*?)\]\(`: the first `]` from which a link completes, or -1 when there is none |
| `LinePatterns.NoLinkAt` | lib/parser.js:6 | no link closes at a `]` that is not followed by `(` and a same-line `)` |
| `LinePatterns.TerminatorEndsLink` | lib/parser.js:6 | a line terminator inside the text part ends every later link match |
| `LinePatterns.OnOneLineExtend` | lib/parser.js:6 | a character that is not a line terminator extends a same-line span |
| `LinePatterns.MatchLink` | lib/parser.js:6 | no match exactly when no link prefix exists; a match captures the text and url of the earliest `]` and then the earliest `)` |
| `LinePatterns.MatchBullet` | lib/parser.js:7 | the definition of the bullet match; its properties are `BulletMatchSpec` and `BulletMatchIs` |
| `LinePatterns.MatchOrdered` | lib/parser.js:8 | the definition of the ordered match; its properties are `OrderedMatchSpec` and `OrderedMatchIs` |
| `LinePatterns.BulletMatchSpec` | lib/parser.js:7 | the bullet pattern matches exactly when a bullet prefix exists |
| `LinePatterns.BulletMatchIs` | lib/parser.js:7 | the bullet pattern captures the content after the prefix, up to the first line terminator |
| `LinePatterns.OrderedMatchSpec` | lib/parser.js:8 | the ordered pattern matches exactly when an ordered prefix exists |
| `LinePatterns.OrderedMatchIs` | lib/parser.js:7-8 | an ordered line is no bullet line, and it captures the content after its prefix |
| `LinePatterns.OrderedMatchAt` | lib/parser.js:8 | the capture at the prefix found by scanning the whitespace and then the digits |
| `LinePatterns.OrderedNotBullet` | lib/parser.js:7-8 | a line with an ordered prefix does not match the bullet pattern |
| `LinePatterns.OrderedPrefixUnique` | lib/parser.js:8 | an ordered prefix is determined by the line: all the leading whitespace and then all the digits |
| `CharClasses.EscapableIsPunctuation` | lib/parser.js:12 | the escapable set is exactly the 32 ASCII punctuation characters |
| `CharClasses.LineContent` | lib/parser.js:4-8 | `(.*)` stops at the first line terminator: the capture has none, and it ends at a terminator or at the end of the line |
| `CharClasses.LineContentPrefix` | lib/parser.js:4-8 | the `(.*)` capture is a prefix of the text after the prefix |
| `CharClasses.LeadingWhitespace` | lib/parser.js:7-8 | `\s*` takes all the leading whitespace |
| `CharClasses.LeadingDigits` | lib/parser.js:8 | `\d+` takes all the leading digits |
| `CharClasses.CountLeading` | lib/parser.js:4 | the number of leading `#` |
| `CharClasses.LeadingWhitespaceIs` | lib/parser.js:7-8 | the run of leading whitespace is determined by where it stops |
| `CharClasses.LeadingDigitsIs` | lib/parser.js:8 | the run of leading digits is determined by where it stops |
| `CharClasses.CountLeadingIs` | lib/parser.js:4 | the run of leading `#` is determined by where it stops |
| `InlineScanner.ParseInline` | lib/parser.js:56-178 | the scanning loop returns `Inline(text)` |
| `InlineScanner.NextToken` | lib/parser.js:67-171 | every step consumes at least one character, and a span resumes past its own start |
| `InlineScanner.FindEmphasisCloser` | lib/parser.js:136-148 | the closer loop returns the first index after the opener holding a valid closer (a `*` not preceded by a `*` other than the opener, and followed either by no `*` or by two), with no valid closer before it; -1 exactly when there is none |
| `InlineScanner.FindStrongCloser` | lib/parser.js:103-113 | the closer search of the `**` branch: -1 exactly when no `**` starts at or after i + 2, otherwise an index where one starts; which one is stated by `StrongCloserAbsorbs` and `StrongCloserFirst` |
| `InlineScanner.IndexOfDouble` | lib/parser.js:82-106 | `indexOf` of a doubled character: the first index at or after `from` where it starts, with none earlier; -1 exactly when there is none |
| `InlineScanner.IndexOfDoubleIs` | lib/parser.js:82-106 | `indexOf` returns the first doubled character, whichever index that is |
| `InlineScanner.FirstEmphasisCloser` | lib/parser.js:136-148 | the first valid closer at or after `from`, with none earlier; -1 exactly when no valid closer follows |
| `InlineScanner.StrongCloser` | lib/parser.js:103-113 | -1 exactly when no `**` starts at or after i + 2; otherwise an index where a `**` starts |
| `InlineScanner.StrongCloserAbsorbs` | lib/parser.js:103-113 | with e the first `**` at or after i + 2 and n the first `**` after e: the closer is n when a third `*` follows the opener and text[i+2..n] is longer than two characters and starts and ends with `*`, and e otherwise |
| `InlineScanner.StrongCloserFirst` | lib/parser.js:103-113 | when no `**` starts after the first one, that first one is the closer |
| `InlineScanner.ScanFrom` | lib/parser.js:62-177 | the definition of the rest of the scan from a loop state: the emitted nodes, the pending text and the index; the target of the loop invariant of `ParseInline` |
| `InlineScanner.Inline` | lib/parser.js:56-178 | the definition of `parseInlineFormatting`'s result; its properties are `InlineLossless` and `InlineWellFormed` |
| `InlineProperties.StrikeLiteralIff` | lib/parser.js:81-100 | a `~~` stays literal exactly when no `~~` follows it or the next one starts right after it |
| `InlineProperties.StrongLiteralIff` | lib/parser.js:101-131 | a `**` that is not part of `****` stays literal exactly when no `**` follows it |
| `InlineProperties.EmphasisLiteralIff` | lib/parser.js:132-171 | a single `*` stays literal exactly when no valid closer follows it |
| `InlineScanner.PushNode` | lib/parser.js:84-92 | flushes non-empty pending text as a text node before the new node and empties the buffer |
| `InlineScanner.ScanStrikethrough` | lib/parser.js:81-100 | the `~~` branch consumes at least two characters and leaves the rest of the scan's result unchanged |
| `InlineScanner.ScanStrong` | lib/parser.js:101-131 | the `**` branch consumes at least two characters and leaves the rest of the scan's result unchanged |
| `InlineScanner.ScanEmphasis` | lib/parser.js:132-163 | the `*` branch either consumes a whole span or declines, and then the `*` is an ordinary character |
| `InlineProperties.InlineLossless` | lib/parser.js:56-178 | writing every node back with its delimiters gives exactly the scanned text: nothing is lost, dropped or reordered |
| `InlineProperties.ScanLossless` | lib/parser.js:62-177 | from any state of the loop, the rest of the scan writes back to the emitted nodes, the pending text and the unread text |
| `InlineProperties.InnerLossless` | lib/parser.js:88-158 | the children of a span write back to the span's inner text |
| `InlineProperties.TokenShape` | lib/parser.js:67-171 | a literal step takes 1, 2 or 4 characters; a span is its marker, non-empty content and its marker |
| `InlineProperties.StrikeShape` | lib/parser.js:81-100 | a strikethrough span is `~~`, non-empty content and `~~` |
| `InlineProperties.StrongShape` | lib/parser.js:101-131 | a strong span is `**`, non-empty content and `**` |
| `InlineProperties.EmphasisShape` | lib/parser.js:132-163 | an emphasis span is `*`, non-empty content and `*` |
| `InlineProperties.SourceOfAppend` | lib/parser.js:56-178 | writing back distributes over concatenation |
| `InlineProperties.SourceOfWrap` | lib/parser.js:81-163 | a span writes back as its marker, its children and its marker |
| `InlineProperties.InlineWellFormed` | lib/parser.js:56-178 | no empty text node, never two adjacent text nodes, no empty span at any depth; the result is empty exactly when the text is |
| `InlineProperties.ScanWellFormed` | lib/parser.js:62-177 | the loop keeps the result well formed |
| `InlineProperties.InnerWellFormed` | lib/parser.js:88-158 | the children of a span are well formed |
| `InlineProperties.SpanNodeWellFormed` | lib/parser.js:81-163 | every span node the scan emits is well formed |
| `InlineProperties.FlushWellFormed` | lib/parser.js:174-177 | the final flush keeps the result well formed |
| `InlineProperties.SpanWellFormed` | lib/parser.js:84-92 | flushing and then pushing a span keeps the result well formed |
| `InlineProperties.BackslashToken` | lib/parser.js:67-74 | a backslash before an escapable character keeps both characters as text; otherwise the backslash is ordinary text |
| `InlineProperties.PlainScan` | lib/parser.js:62-177 | text without `*` or `~` is only accumulated |
| `InlineProperties.PlainText` | lib/parser.js:56-178 | text without `*` or `~` is one text node, or nothing when it is empty |
| `InlineProperties.FourStarsExample` | lib/parser.js:75-80 | `****` stays text |
| `InlineProperties.EmphasisExample` | lib/parser.js:132-163 | `*a*` is emphasis |
| `InlineProperties.EmphasisWordExample` | lib/parser.js:132-163 | `*text*` is emphasis of `text` |
| `InlineProperties.EmphasisWordCloser` | lib/parser.js:136-148 | the closer of `*text*` is its last character |
| `InlineProperties.EmphasisWordHead` | lib/parser.js:132-163 | the first step on `*text*` is the whole emphasis span |
| `InlineProperties.TextIsPlain` | lib/parser.js:56-178 | `text` is one text node |
| `InlineProperties.TripleStarsExample` | lib/parser.js:105-113 | `***text***` is strong around emphasis |
| `InlineProperties.TripleStarsCloser` | lib/parser.js:105-113 | in `***text***`, the strong closer is the last `**` |
| `InlineProperties.TripleStarsHead` | lib/parser.js:101-131 | the first step on `***text***` is the whole strong span |
| `InlineProperties.BoldThenStarsExample` | lib/parser.js:101-131 | `**bold****` is strong `bold` followed by the text `**` |
| `InlineProperties.BoldThenStarsClosers` | lib/parser.js:103-113 | the closers in `**bold****`: the first `**` after the content, and none for the trailing pair |
| `InlineProperties.BoldThenStarsHead` | lib/parser.js:101-131 | the first step on `**bold****` is the strong span |
| `InlineProperties.BoldIsPlain` | lib/parser.js:56-178 | `bold` is one text node |
| `InlineProperties.BoldThenStarsTail` | lib/parser.js:127-131 | the trailing `**` of `**bold****` has no closer and becomes text |
| `InlineProperties.UnclosedStrongExample` | lib/parser.js:127-131 | `**a` stays text |
| `InlineProperties.UnclosedEmphasisExample` | lib/parser.js:132-171 | `*a` stays text |
| `InlineProperties.EmptyStrikethroughExample` | lib/parser.js:96-99 | `~~` stays text |
| `InlineProperties.DoubleStrikethroughExample` | lib/parser.js:81-99 | `~~~~` stays text: a span needs content |
| `InlineProperties.EscapedStarExample` | lib/parser.js:67-74 | `\*a*` keeps the escape and makes no emphasis |
| `HtmlEscape.ReplaceAll` | lib/renderer.js:7-11 | a global replace of a character the text does not contain changes nothing |
| `HtmlEscape.EscapeHtml` | lib/renderer.js:5-12 | the definition of the five chained replacements; its properties are `EscapeHtmlIsPerChar`, `EscapeSafe` and `UnescapeEscape` |
| `HtmlEscape.ReplaceAllAppend` | lib/renderer.js:7-11 | a global replace distributes over concatenation |
| `HtmlEscape.ReplaceSingle` | lib/renderer.js:7-11 | a replace on one character |
| `HtmlEscape.ReplaceAbsent` | lib/renderer.js:7-11 | a replace of an absent character changes nothing |
| `HtmlEscape.EntityInert` | lib/renderer.js:8-11 | the replacements after `&` leave the entities of the earlier replacements alone |
| `HtmlEscape.EscapeHtmlAppend` | lib/renderer.js:5-12 | `escapeHtml` distributes over concatenation |
| `HtmlEscape.EscapeHtmlChar` | lib/renderer.js:5-12 | on one character the chain gives that character's escape |
| `HtmlEscape.EscapeHtmlIsPerChar` | lib/renderer.js:5-12 | `escapeHtml` equals escaping each character on its own; no `&` is escaped twice |
| `HtmlEscape.EscapePlain` | lib/renderer.js:5-12 | text without `&`, `<`, `>`, `"` or `'` is unchanged |
| `HtmlEscape.EscapeEachPlain` | lib/renderer.js:5-12 | the per-character escape leaves such text unchanged |
| `HtmlEscape.EscapeSafe` | lib/renderer.js:5-12 | escaped text has no `<`, `>`, `"` or `'`, and each `&` begins one of the five entities |
| `HtmlEscape.EscapeEachSafe` | lib/renderer.js:5-12 | the per-character escape is safe |
| `HtmlEscape.SafeAppend` | lib/renderer.js:5-12 | safe text concatenated with safe text is safe |
| `HtmlEscape.SafeChar` | lib/renderer.js:7-11 | the escape of one character is safe |
| `HtmlEscape.UnescapeEscape` | lib/renderer.js:5-12 | decoding the five entities gives the original text back, so escaping loses nothing |
| `HtmlEscape.UnescapeEach` | lib/renderer.js:5-12 | decoding inverts the per-character escape |
| `HtmlEscape.UnescapeStep` | lib/renderer.js:7-11 | decoding takes back one character's escape, whatever follows it |
| `Renderer.Decimal` | lib/renderer.js:18 | the level as a template string writes it: one or more decimal digits |
| `Renderer.DigitChar` | lib/renderer.js:18 | a digit below ten is written as one decimal digit |
| `Renderer.DecimalRoundTrip` | lib/renderer.js:18 | reading the written level back gives the level, with no leading zero |
| `Renderer.RenderChildren` | lib/renderer.js:1-3 | the definition of the `reduce`; its property is `RenderChildrenJoined` |
| `Renderer.Render` | lib/renderer.js:14-39 | the definition of the template table; its properties are the `RenderProperties` lemmas |
| `RenderProperties.JoinedAppend` | lib/renderer.js:1-3 | the concatenation of renderings distributes over concatenation |
| `RenderProperties.RenderChildrenJoined` | lib/renderer.js:1-3 | the `reduce` gives the children's renderings concatenated in order |
| `RenderProperties.ContainerRendering` | lib/renderer.js:15-32 | a document renders as its children in order; each wrapping element renders as its fixed open tag, its children and its close tag |
| `RenderProperties.HeadingRendering` | lib/renderer.js:18 | `<hN>` children `</hN>` with N the level in decimal, one digit for the levels 1 to 6 |
| `RenderProperties.TextRendering` | lib/renderer.js:33 | text renders escaped: it is safe, it decodes back to the value, and it is unchanged when it has no special character |
| `RenderProperties.UnknownRendering` | lib/renderer.js:36-39 | a type that is neither a key of the table nor inherited from `Object.prototype` renders as the empty string |
| `RenderProperties.AttributeRendering` | lib/renderer.js:23-30 | the title and language attributes are written exactly when the value is not empty, with the value escaped and free of `"` |
| `RenderProperties.UntitledLinkRendering` | lib/renderer.js:23 | a link without a title renders as only its escaped `href` around its children |
| `RenderProperties.ParagraphRendering` | lib/renderer.js:32 | a paragraph renders as `<p>`, its children and `</p>` |
| `RenderProperties.NoQuoteAppend` | lib/renderer.js:1-3 | text free of `"` stays free of it when concatenated |
| `RenderProperties.InlineNodeNoQuote` | lib/renderer.js:19-33 | a well-formed inline node renders without `"` |
| `RenderProperties.InlineListNoQuote` | lib/renderer.js:1-3 | a well-formed inline list renders without `"` |
| `RenderProperties.InlineRenderingNoQuote` | lib/renderer.js:1-33 | whatever the line, its rendered inline markup has no `"`, so it cannot end an attribute value |
| `RenderProperties.PlainInlineRendering` | lib/renderer.js:1-33 | text without `*` or `~` renders as `escapeHtml` of itself |
| `RenderProperties.EscapeEachThree` | lib/renderer.js:5-12 | the per-character escape of three characters |
| `RenderProperties.EscapeTagSteps` | lib/renderer.js:5-12 | `<b>` escapes to `&lt;b&gt;` |
| `RenderProperties.TagHasNoDelimiters` | lib/parser.js:56-178 | `<b>` holds no inline delimiter |
| `RenderProperties.ScriptSteps` | lib/renderer.js:32-33 | a paragraph of `<b>` renders as `<p>&lt;b&gt;</p>` |
| `RenderProperties.ScriptExample` | lib/renderer.js:32-33 | markup typed as text comes out escaped: `<p>&lt;b&gt;</p>` |

## Left out

- Character set: the source works on UTF-16 code units. The model works on Dafny `char`s and does not model surrogate pairs.
- `\s`: modelled as the ECMAScript whitespace and line-terminator set. The line-terminator set is the one that `.` refuses to cross.
- `String.prototype.trim`: modelled as a test for an all-whitespace line, since only its emptiness is ever compared.
- Regular expressions: each pattern is modelled by a hand-written matcher, proved to agree with a predicate that states what the regex accepts. Backtracking itself is not modelled.
- `for...in` over `regexPatternsToNodeTypes`: modelled as the literal keys in their insertion order (heading, quote, link). Keys inherited from `Object.prototype` are not modelled.
- Node objects: modelled as one algebraic datatype. The renderer's lookup by the `type` string is a `match`, and a type outside the table is the constructor `Unknown`. Nothing stops `Unknown` from carrying a name that is in the table; such a node still renders as the empty string, unlike the source.
- RenderProperties.UnknownRendering: the empty string is promised only for names outside both the table and `Object.prototype`. A lookup of an inherited name (`toString`, `constructor`, `valueOf`, `__proto__` and the other members of `Renderer.InheritedKeys`) finds a function that is not a template: the source then returns something else or throws a TypeError. Such nodes are not modelled.
- `HandleListItem`: the source pushes into the previous list object in place. The model replaces that list with a grown copy. Sharing of that object with other references is not modelled, since the parser keeps none.
- Link titles: the parser never sets one. In the renderer, a missing or empty `title`, and a missing `language`, are all modelled as the empty string, the one value for which the template writes no attribute.
- Heading level: modelled as a `nat`. The renderer also accepts levels the parser never makes, and `Decimal` writes them.
- Missing fields: a node whose `children` or `value` is missing makes the source throw. Every constructor in the model carries its fields, so this case does not arise.
- Backslash escapes: `InlineScanner.NextToken` tests the character after `\` against the ASCII punctuation ranges rather than the set. `CharClasses.EscapableIsPunctuation` proves the two equal, and the loop `ParseInline` uses the set itself.
- Escapes in the output: the code keeps both the backslash and the escaped character in the text. The model follows the code. Some tests of the repository expect the backslash to be dropped; those expectations disagree with the code.
- Unsupported constructs: the parser does not recognise fenced code, inline code, images, inline links or horizontal rules. The renderer's entries for them (`code-block`, `code`, `image`, `horizontal-rule`, `div`) are modelled in `Renderer.Render`, and their attributes are covered by `RenderProperties.AttributeRendering`.
- `GFM_PUNCTUATION` and `isGfmWhitespaceOrPunctuation` (lib/parser.js:1, 14-19): never called, so not modelled.
- The benchmark script and the module exports: these are not part of this model.
