/** `parseInlineFormatting` (lib/parser.js): one left-to-right pass over a line's
    content with a pending text buffer, recognising backslash escapes, a literal
    `****`, `~~strikethrough~~`, `**strong**` and `*emphasis*`, and recursing on
    the text between a pair of delimiters.

    The functions state what one step of the scan does (NextToken) and what the
    whole scan returns (Inline); the method ParseInline is the loop itself,
    proved to return Inline(text). */
module InlineScanner {
  import opened CharClasses
  import opened Syntax

  /** The three delimiter pairs that wrap inline content. */
  datatype Span = StrikeSpan | StrongSpan | EmphasisSpan

  /** The delimiter written on each side of the span's content. */
  function Marker(span: Span): string {
    match span
    case StrikeSpan => "~~"
    case StrongSpan => "**"
    case EmphasisSpan => "*"
  }

  function Wrap(span: Span, children: seq<Node>): Node {
    match span
    case StrikeSpan => Strikethrough(children)
    case StrongSpan => Strong(children)
    case EmphasisSpan => Emphasis(children)
  }

  /** What the scanner does at one position: either append the next `width`
      characters to the pending text, or flush the pending text and emit the
      span whose content is text[innerStart..innerEnd] (parsed into
      `children`), resuming at `next`. */
  datatype Token =
    | Literal(width: nat)
    | Delimited(span: Span, innerStart: nat, innerEnd: nat, next: nat, children: seq<Node>)

  /** Two copies of `c` start at index k. */
  predicate DoubleAt(text: string, c: char, k: int) {
    0 <= k && k + 1 < |text| && text[k] == c && text[k + 1] == c
  }

  /** `text.indexOf(cc, from)` for a doubled character `cc`: the first k >= from
      where two copies of `c` start, or -1. */
  function IndexOfDouble(text: string, c: char, from: nat): (r: int)
    ensures r == -1 || (from <= r && DoubleAt(text, c, r))
    ensures r == -1 ==> forall k :: from <= k ==> !DoubleAt(text, c, k)
    ensures r != -1 ==> forall k :: from <= k < r ==> !DoubleAt(text, c, k)
    decreases |text| - from
  {
    if from + 1 >= |text| then -1
    else if text[from] == c && text[from + 1] == c then from
    else IndexOfDouble(text, c, from + 1)
  }

  /** The test applied to a `*` at index k when looking for the closer of the
      single `*` at index i: it is not preceded by a `*` other than the opener,
      and it is not followed by `*` unless that `*` is followed by a third. */
  predicate IsEmphasisCloser(text: string, i: nat, k: nat)
    requires i < k < |text|
  {
    var prevIsStar := text[k - 1] == '*' && k - 1 != i;
    var nextIsStar := k + 1 < |text| && text[k + 1] == '*';
    var thirdIsStar := nextIsStar && k + 2 < |text| && text[k + 2] == '*';
    text[k] == '*' && !prevIsStar && (!nextIsStar || thirdIsStar)
  }

  /** The first k >= from that closes the `*` at index i, or -1. */
  function FirstEmphasisCloser(text: string, i: nat, from: nat): (r: int)
    requires i < from <= |text|
    ensures r == -1 || (from <= r < |text| && IsEmphasisCloser(text, i, r))
    ensures r == -1 ==> forall k :: from <= k < |text| ==> !IsEmphasisCloser(text, i, k)
    ensures r != -1 ==> forall k :: from <= k < r ==> !IsEmphasisCloser(text, i, k)
    decreases |text| - from
  {
    if from == |text| then -1
    else if IsEmphasisCloser(text, i, from) then from
    else FirstEmphasisCloser(text, i, from + 1)
  }

  /** The closing `**` for the `**` at index i, including the rule that lets
      `***x***` close on the later `**` so the inner `*x*` becomes emphasis. */
  function StrongCloser(text: string, i: nat): (r: int)
    requires i + 1 < |text|
    ensures r == -1 <==> IndexOfDouble(text, '*', i + 2) == -1
    ensures r == -1 <==> forall k :: i + 2 <= k ==> !DoubleAt(text, '*', k)
    ensures r == -1 || (i + 2 <= r && DoubleAt(text, '*', r))
  {
    var endIndex := IndexOfDouble(text, '*', i + 2);
    if endIndex != -1 && i + 2 < |text| && text[i + 2] == '*' then
      var nextEndIndex := IndexOfDouble(text, '*', endIndex + 1);
      if nextEndIndex != -1 && AbsorbsStar(text, i + 2, nextEndIndex) then nextEndIndex else endIndex
    else endIndex
  }

  /** The candidate content text[from..to] is longer than two characters and
      both starts and ends with `*`. */
  predicate AbsorbsStar(text: string, from: nat, to: nat)
    requires from <= to <= |text|
  {
    to - from > 2 && text[from] == '*' && text[to - 1] == '*'
  }

  /** e is the first index at or after `from` where two copies of `c` start. */
  predicate FirstDoubleAt(text: string, c: char, from: nat, e: nat) {
    from <= e && DoubleAt(text, c, e) && forall k :: from <= k < e ==> !DoubleAt(text, c, k)
  }

  /** `indexOf` finds the first doubled character. */
  lemma IndexOfDoubleIs(text: string, c: char, from: nat, e: nat)
    requires FirstDoubleAt(text, c, from, e)
    ensures IndexOfDouble(text, c, from) == e
  {
    var r := IndexOfDouble(text, c, from);
    assert r != -1;
    assert !(r < e) && !(e < r);
  }

  /** Which `**` closes the strong span opened at i, when there is a `**` n
      after the first `**` e at or after i + 2: e, unless the opener is
      followed by a third `*` and text[i + 2..n] starts and ends with `*`,
      in which case the closer moves to n. */
  lemma StrongCloserAbsorbs(text: string, i: nat, e: nat, n: nat)
    requires i + 1 < |text| && FirstDoubleAt(text, '*', i + 2, e) && FirstDoubleAt(text, '*', e + 1, n)
    ensures StrongCloser(text, i) == if text[i + 2] == '*' && AbsorbsStar(text, i + 2, n) then n else e
  {
    IndexOfDoubleIs(text, '*', i + 2, e);
    IndexOfDoubleIs(text, '*', e + 1, n);
  }

  /** With no `**` after the first one, that first one closes the span. */
  lemma StrongCloserFirst(text: string, i: nat, e: nat)
    requires i + 1 < |text| && FirstDoubleAt(text, '*', i + 2, e)
    requires forall k :: e + 1 <= k ==> !DoubleAt(text, '*', k)
    ensures StrongCloser(text, i) == e
  {
    IndexOfDoubleIs(text, '*', i + 2, e);
  }

  /** The branch the scanner takes at index i, in the source's priority order.
      The escape test is membership in EscapableChars, written here as the
      ASCII punctuation ranges (the two agree: EscapableIsPunctuation). */
  function NextToken(text: string, i: nat): (t: Token)
    requires i < |text|
    decreases |text|, 0
    ensures t.Literal? ==> 1 <= t.width && i + t.width <= |text|
    ensures t.Delimited? ==> i < t.next <= |text|
  {
    var c := text[i];
    if c == '\\' && i + 1 < |text| then
      if IsAsciiPunctuation(text[i + 1]) then Literal(2) else Literal(1)
    else if c == '*' && i + 3 < |text| && text[i + 1] == '*' && text[i + 2] == '*' && text[i + 3] == '*' then
      Literal(4)
    else if c == '~' && i + 1 < |text| && text[i + 1] == '~' then
      var endIndex := IndexOfDouble(text, '~', i + 2);
      if endIndex != -1 && endIndex > i + 2 then Delimited(StrikeSpan, i + 2, endIndex, endIndex + 2, Inline(text[i + 2..endIndex]))
      else Literal(2)
    else if c == '*' then
      if i + 1 < |text| && text[i + 1] == '*' then
        var endIndex := StrongCloser(text, i);
        if endIndex != -1 && endIndex > i + 2 then Delimited(StrongSpan, i + 2, endIndex, endIndex + 2, Inline(text[i + 2..endIndex]))
        else Literal(2)
      else
        var endIndex := FirstEmphasisCloser(text, i, i + 1);
        if endIndex != -1 && endIndex > i + 1 then Delimited(EmphasisSpan, i + 1, endIndex, endIndex + 1, Inline(text[i + 1..endIndex]))
        else Literal(1)
    else
      Literal(1)
  }

  /** The pending text, as the node list it is flushed to. */
  function Flush(pending: string): seq<Node> {
    if |pending| > 0 then [Text(pending)] else []
  }

  /** The nodes the scan of `text` returns when it reaches index i having
      emitted `done`, with `pending` in the text buffer. NextToken belongs to
      the same recursion, since a span's children are the scan of its content. */
  function ScanFrom(text: string, done: seq<Node>, pending: string, i: nat): seq<Node>
    requires i <= |text|
    decreases |text|, 1, |text| - i
  {
    if i == |text| then done + Flush(pending)
    else
      match NextToken(text, i)
      case Literal(width) => ScanFrom(text, done, pending + text[i..i + width], i + width)
      case Delimited(span, _, _, next, children) =>
        ScanFrom(text, done + Flush(pending) + [Wrap(span, children)], "", next)
  }

  /** The result of `parseInlineFormatting(text)`. */
  function Inline(text: string): seq<Node>
    decreases |text|, 2, 0
  {
    ScanFrom(text, [], "", 0)
  }

  /** The `for` loop of the single-`*` branch: the index of the first valid closer, or -1. */
  method FindEmphasisCloser(text: string, i: nat) returns (endIndex: int)
    requires i < |text|
    ensures endIndex == FirstEmphasisCloser(text, i, i + 1)
    ensures endIndex == -1 || (i < endIndex < |text| && IsEmphasisCloser(text, i, endIndex))
    ensures forall k :: i < k < |text| && (endIndex == -1 || k < endIndex) ==> !IsEmphasisCloser(text, i, k)
  {
    endIndex := -1;
    var k := i + 1;
    while k < |text|
      invariant i + 1 <= k <= |text|
      invariant FirstEmphasisCloser(text, i, i + 1) == FirstEmphasisCloser(text, i, k)
    {
      if text[k] == '*' {
        var isPrevCharStar := text[k - 1] == '*' && k - 1 != i;
        var isNextCharStar := k + 1 < |text| && text[k + 1] == '*';
        var canBeFollowedByStar := isNextCharStar && k + 2 < |text| && text[k + 2] == '*';
        if !isPrevCharStar && (!isNextCharStar || canBeFollowedByStar) {
          endIndex := k;
          return;
        }
      }
      k := k + 1;
    }
  }

  /** The closing-index search of the `**` branch, with the `***x***` rule. */
  method FindStrongCloser(text: string, i: nat) returns (endIndex: int)
    requires i + 1 < |text|
    ensures endIndex == StrongCloser(text, i)
    ensures endIndex == -1 <==> forall k :: i + 2 <= k ==> !DoubleAt(text, '*', k)
    ensures endIndex != -1 ==> i + 2 <= endIndex && DoubleAt(text, '*', endIndex)
  {
    endIndex := IndexOfDouble(text, '*', i + 2);
    if endIndex != -1 && i + 2 < |text| && text[i + 2] == '*' {
      var nextEndIndex := IndexOfDouble(text, '*', endIndex + 1);
      if nextEndIndex != -1 {
        var altContent := text[i + 2..nextEndIndex];
        if |altContent| > 2 && altContent[0] == '*' && altContent[|altContent| - 1] == '*' {
          assert AbsorbsStar(text, i + 2, nextEndIndex);
          endIndex := nextEndIndex;
        }
      }
    }
  }

  /** A literal step moves `width` characters into the buffer. */
  lemma LiteralStep(text: string, done: seq<Node>, pending: string, i: nat, width: nat)
    requires i < |text| && NextToken(text, i) == Literal(width)
    ensures i + width <= |text|
    ensures ScanFrom(text, done, pending, i) == ScanFrom(text, done, pending + text[i..i + width], i + width)
  {
  }

  /** A one-character literal step appends that character to the buffer. */
  lemma PlainStep(text: string, done: seq<Node>, pending: string, i: nat)
    requires i < |text| && NextToken(text, i) == Literal(1)
    ensures ScanFrom(text, done, pending, i) == ScanFrom(text, done, pending + [text[i]], i + 1)
  {
    LiteralStep(text, done, pending, i, 1);
    assert text[i..i + 1] == [text[i]];
  }

  /** A two-character literal step appends those two characters to the buffer. */
  lemma PairStep(text: string, done: seq<Node>, pending: string, i: nat)
    requires i + 1 < |text| && NextToken(text, i) == Literal(2)
    ensures ScanFrom(text, done, pending, i) == ScanFrom(text, done, pending + [text[i], text[i + 1]], i + 2)
  {
    LiteralStep(text, done, pending, i, 2);
    assert text[i..i + 2] == [text[i], text[i + 1]];
  }

  /** The tokens of the branches that do not look for a closer. */
  lemma EscapeToken(text: string, i: nat)
    requires i + 1 < |text| && text[i] == '\\' && text[i + 1] in EscapableChars
    ensures NextToken(text, i) == Literal(2)
  {
    EscapableIsPunctuation(text[i + 1]);
  }

  lemma FourStarsStep(text: string, done: seq<Node>, pending: string, i: nat)
    requires i + 3 < |text| && text[i] == '*' && text[i + 1] == '*' && text[i + 2] == '*' && text[i + 3] == '*'
    ensures ScanFrom(text, done, pending, i) == ScanFrom(text, done, pending + "****", i + 4)
  {
    assert NextToken(text, i) == Literal(4);
    LiteralStep(text, done, pending, i, 4);
    assert text[i..i + 4] == "****";
  }

  lemma OrdinaryToken(text: string, i: nat)
    requires i < |text| && text[i] != '*'
    requires !(text[i] == '\\' && i + 1 < |text| && text[i + 1] in EscapableChars)
    requires !(text[i] == '~' && i + 1 < |text| && text[i + 1] == '~')
    ensures NextToken(text, i) == Literal(1)
  {
    if text[i] == '\\' && i + 1 < |text| {
      EscapableIsPunctuation(text[i + 1]);
    }
  }

  /** The tokens of the three branches that look for a closer. */
  lemma StrikeToken(text: string, i: nat)
    requires i + 1 < |text| && text[i] == '~' && text[i + 1] == '~'
    ensures var endIndex := IndexOfDouble(text, '~', i + 2);
      NextToken(text, i)
      == if endIndex != -1 && endIndex > i + 2
         then Delimited(StrikeSpan, i + 2, endIndex, endIndex + 2, Inline(text[i + 2..endIndex]))
         else Literal(2)
  {
  }

  lemma StrongToken(text: string, i: nat)
    requires i + 1 < |text| && text[i] == '*' && text[i + 1] == '*'
    requires !(i + 3 < |text| && text[i + 2] == '*' && text[i + 3] == '*')
    ensures var endIndex := StrongCloser(text, i);
      NextToken(text, i)
      == if endIndex != -1 && endIndex > i + 2
         then Delimited(StrongSpan, i + 2, endIndex, endIndex + 2, Inline(text[i + 2..endIndex]))
         else Literal(2)
  {
  }

  lemma EmphasisToken(text: string, i: nat)
    requires i < |text| && text[i] == '*' && !(i + 1 < |text| && text[i + 1] == '*')
    ensures var endIndex := FirstEmphasisCloser(text, i, i + 1);
      NextToken(text, i)
      == if endIndex != -1 && endIndex > i + 1
         then Delimited(EmphasisSpan, i + 1, endIndex, endIndex + 1, Inline(text[i + 1..endIndex]))
         else Literal(1)
  {
  }

  /** A delimited step flushes the buffer and emits the span. */
  lemma DelimitedStep(text: string, done: seq<Node>, pending: string, i: nat, span: Span, innerStart: nat, innerEnd: nat, next: nat, children: seq<Node>)
    requires i < |text| && NextToken(text, i) == Delimited(span, innerStart, innerEnd, next, children)
    ensures ScanFrom(text, done, pending, i) == ScanFrom(text, done + Flush(pending) + [Wrap(span, children)], "", next)
  {
  }

  /** At the end of the text the scan only flushes the buffer. */
  lemma FinalStep(text: string, done: seq<Node>, pending: string)
    ensures ScanFrom(text, done, pending, |text|) == done + Flush(pending)
  {
  }

  /** Pushes `node` after flushing the buffer into a text node when it is not empty. */
  method PushNode(nodes: seq<Node>, currentText: string, node: Node) returns (nodes': seq<Node>, currentText': string)
    ensures nodes' == nodes + Flush(currentText) + [node] && currentText' == ""
  {
    nodes', currentText' := nodes, currentText;
    if |currentText'| > 0 {
      nodes' := nodes' + [Text(currentText')];
      currentText' := "";
    }
    nodes' := nodes' + [node];
  }

  /** The `~~` branch at index i: a strikethrough span when a closing `~~`
      follows with at least one character between, else two literal tildes. */
  method ScanStrikethrough(text: string, i: nat, nodes: seq<Node>, currentText: string)
    returns (nodes': seq<Node>, currentText': string, consumedLen: nat)
    requires i + 1 < |text| && text[i] == '~' && text[i + 1] == '~'
    ensures i + consumedLen <= |text| && 2 <= consumedLen
    ensures ScanFrom(text, nodes', currentText', i + consumedLen) == ScanFrom(text, nodes, currentText, i)
    decreases |text|, 0
  {
    StrikeToken(text, i);
    var endIndex := IndexOfDouble(text, '~', i + 2);
    if endIndex != -1 && endIndex > i + 2 {
      var content := text[i + 2..endIndex];
      var children := ParseInline(content);
      nodes', currentText' := PushNode(nodes, currentText, Strikethrough(children));
      consumedLen := (endIndex + 2) - i;
      DelimitedStep(text, nodes, currentText, i, StrikeSpan, i + 2, endIndex, endIndex + 2, children);
    } else {
      PairStep(text, nodes, currentText, i);
      nodes', currentText' := nodes, currentText + "~~";
      consumedLen := 2;
    }
  }

  /** The `**` branch at index i (no `****` there): a strong span when a
      closer lies past at least one character, else two literal asterisks. */
  method ScanStrong(text: string, i: nat, nodes: seq<Node>, currentText: string)
    returns (nodes': seq<Node>, currentText': string, consumedLen: nat)
    requires i + 1 < |text| && text[i] == '*' && text[i + 1] == '*'
    requires !(i + 3 < |text| && text[i + 2] == '*' && text[i + 3] == '*')
    ensures i + consumedLen <= |text| && 2 <= consumedLen
    ensures ScanFrom(text, nodes', currentText', i + consumedLen) == ScanFrom(text, nodes, currentText, i)
    decreases |text|, 0
  {
    StrongToken(text, i);
    var endIndex := FindStrongCloser(text, i);
    if endIndex != -1 && endIndex > i + 2 {
      var content := text[i + 2..endIndex];
      var children := ParseInline(content);
      nodes', currentText' := PushNode(nodes, currentText, Strong(children));
      consumedLen := (endIndex + 2) - i;
      DelimitedStep(text, nodes, currentText, i, StrongSpan, i + 2, endIndex, endIndex + 2, children);
    } else {
      PairStep(text, nodes, currentText, i);
      nodes', currentText' := nodes, currentText + "**";
      consumedLen := 2;
    }
  }

  /** The single-`*` branch at index i: an emphasis span when a valid closer
      lies past at least one character (`foundFormatting`); otherwise nothing
      changes and the `*` is then an ordinary character. */
  method ScanEmphasis(text: string, i: nat, nodes: seq<Node>, currentText: string)
    returns (nodes': seq<Node>, currentText': string, consumedLen: nat, foundFormatting: bool)
    requires i < |text| && text[i] == '*' && !(i + 1 < |text| && text[i + 1] == '*')
    ensures foundFormatting ==> i + consumedLen <= |text| && 3 <= consumedLen
    ensures foundFormatting ==>
      ScanFrom(text, nodes', currentText', i + consumedLen) == ScanFrom(text, nodes, currentText, i)
    ensures !foundFormatting ==> NextToken(text, i) == Literal(1) && nodes' == nodes && currentText' == currentText
    decreases |text|, 0
  {
    EmphasisToken(text, i);
    nodes', currentText', consumedLen, foundFormatting := nodes, currentText, 0, false;
    var endIndex := FindEmphasisCloser(text, i);
    if endIndex != -1 && endIndex > i + 1 {
      var content := text[i + 1..endIndex];
      var children := ParseInline(content);
      nodes', currentText' := PushNode(nodes, currentText, Emphasis(children));
      consumedLen := (endIndex + 1) - i;
      foundFormatting := true;
      DelimitedStep(text, nodes, currentText, i, EmphasisSpan, i + 1, endIndex, endIndex + 1, children);
    }
  }

  /** The scanning loop of `parseInlineFormatting`. */
  method ParseInline(text: string) returns (nodes: seq<Node>)
    ensures nodes == Inline(text)
    decreases |text|, 1
  {
    nodes := [];
    var currentText := "";
    var i := 0;
    while i < |text|
      invariant i <= |text|
      invariant ScanFrom(text, nodes, currentText, i) == Inline(text)
      decreases |text| - i
    {
      var c := text[i];
      var consumedLen := 0;
      var foundFormatting := false;

      if c == '\\' && i + 1 < |text| {
        var nextChar := text[i + 1];
        EscapableIsPunctuation(nextChar);
        if nextChar in EscapableChars {
          assert text[i..i + 2] == ['\\', nextChar];
          LiteralStep(text, nodes, currentText, i, 2);
          currentText := currentText + ['\\', nextChar];
          consumedLen := 2;
          foundFormatting := true;
        }
      } else if c == '*' && i + 3 < |text| && text[i + 1] == '*' && text[i + 2] == '*' && text[i + 3] == '*' {
        FourStarsStep(text, nodes, currentText, i);
        currentText := currentText + "****";
        consumedLen := 4;
        foundFormatting := true;
      } else if c == '~' && i + 1 < |text| && text[i + 1] == '~' {
        nodes, currentText, consumedLen := ScanStrikethrough(text, i, nodes, currentText);
        foundFormatting := true;
      } else if c == '*' {
        if i + 1 < |text| && text[i + 1] == '*' {
          nodes, currentText, consumedLen := ScanStrong(text, i, nodes, currentText);
          foundFormatting := true;
        } else {
          nodes, currentText, consumedLen, foundFormatting := ScanEmphasis(text, i, nodes, currentText);
        }
      }

      if foundFormatting {
        i := i + consumedLen;
      } else {
        if c != '*' {
          OrdinaryToken(text, i);
        }
        PlainStep(text, nodes, currentText, i);
        currentText := currentText + [c];
        i := i + 1;
      }
    }
    FinalStep(text, nodes, currentText);
    if |currentText| > 0 {
      nodes := nodes + [Text(currentText)];
    }
  }
}
