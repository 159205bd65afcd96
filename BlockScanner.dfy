/**
  The block scanner of the Markdown renderer (`renderMarkdown`): it walks the text line by
  line and turns it into headings, paragraphs, lists, code blocks and rules.

  The state the source keeps in local variables captured by its `flushList` closure
  (`inCodeBlock`, `codeBlockContent`, `listItems`, `listType` and the output `elements`) is
  the class `MarkdownScanner`. Its methods are proved against the pure fold `Feed` / `Parse`,
  about which the lemmas in module `BlockProperties` are stated.
*/
module BlockScanner {
  import opened Wrappers
  import opened Strings
  import opened InlineTokenizer

  /** An output block; inline content is already tokenized, code lines are kept verbatim. */
  datatype Block =
    | Heading(level: nat, content: seq<Inline>)
    | Paragraph(content: seq<Inline>)
    | List(ordered: bool, items: seq<seq<Inline>>)
    | CodeBlock(lines: seq<string>)
    | Rule

  /** `listType`: `"ul"` or `"ol"` (and `null` is `None`). */
  datatype ListKind = Unordered | Ordered

  predicate IsHash(c: char) {
    c == '#'
  }

  predicate IsRuleChar(c: char) {
    c == '-' || c == '*' || c == '_'
  }

  /**
    `\s+(.+)$` can match from `k` with the capture starting at `j`: white space from `k` up to
    `j` (at least one character), then text to the end of the line with no line terminator.
  */
  ghost predicate TailAt(s: string, k: nat, j: nat) {
    k < j < |s| && AllWhitespace(s[k..j]) && AllLineChars(s[j..])
  }

  /**
    `\s+(.+)$` anchored at `k`, as a backtracking engine runs it: the greedy `\s+` first takes
    the whole run of white space and gives characters back only while `(.+)` is left empty.
  */
  function SpaceThenText(s: string, k: nat): (r: Option<string>)
    requires k <= |s|
    ensures r.Some? ==> r.value != [] && AllLineChars(r.value) && |r.value| < |s| - k && r.value == s[|s| - |r.value|..]
  {
    var e := RunEnd(s, k, IsWhitespace);
    if e == k then None
    else if e < |s| then
      if AllLineChars(s[e..]) then Some(s[e..]) else None
    else if e - k >= 2 && IsLineChar(s[|s| - 1]) then Some(s[|s| - 1..])
    else None
  }

  /** `line.match(/^(#{1,6})\s+(.+)$/)`: the number of `#` and the heading text. */
  function MatchHeader(line: string): (r: Option<(nat, string)>)
    ensures r.Some? ==> 1 <= r.value.0 <= 6 && r.value.0 < |line| && forall k :: 0 <= k < r.value.0 ==> line[k] == '#'
    ensures r.Some? ==> r.value.1 != [] && |r.value.1| < |line| - r.value.0 && r.value.1 == line[|line| - |r.value.1|..]
  {
    var h := RunEnd(line, 0, IsHash);
    if 1 <= h <= 6 then
      var t := SpaceThenText(line, h);
      if t.Some? then Some((h, t.value)) else None
    else None
  }

  /** `line.match(/^[\s]*[-*]\s+(.+)$/)`: the item text of an unordered bullet. */
  function MatchBullet(line: string): (r: Option<string>)
    ensures r.Some? ==> r.value != [] && |r.value| + 2 <= |line| && r.value == line[|line| - |r.value|..]
  {
    var w := RunEnd(line, 0, IsWhitespace);
    if w < |line| && (line[w] == '-' || line[w] == '*') then SpaceThenText(line, w + 1) else None
  }

  /** `line.match(/^[\s]*\d+\.\s+(.+)$/)`: the item text of an ordered bullet; the number is dropped. */
  function MatchNumbered(line: string): (r: Option<string>)
    ensures r.Some? ==> r.value != [] && |r.value| + 3 <= |line| && r.value == line[|line| - |r.value|..]
  {
    var w := RunEnd(line, 0, IsWhitespace);
    var d := RunEnd(line, w, IsDigit);
    if w < d < |line| && line[d] == '.' then SpaceThenText(line, d + 1) else None
  }

  /**
    `/^[-*_]{3,}$/.test(line.trim())`: white space, then at least three of `-`, `*`, `_`, then
    white space. `BlockProperties.RuleIffTrimmedRule` shows this is the test on the trimmed line.
  */
  predicate IsRule(line: string) {
    var a := RunEnd(line, 0, IsWhitespace);
    var b := RunEnd(line, a, IsRuleChar);
    b - a >= 3 && AllWhitespace(line[b..])
  }

  /** `line.trim() === ""`, which `Strings.TrimEmptyIffWhitespace` shows is this. */
  predicate IsBlank(line: string) {
    AllWhitespace(line)
  }

  /** `line.startsWith("```")`. */
  predicate IsFence(line: string) {
    |line| >= 3 && line[0] == '`' && line[1] == '`' && line[2] == '`'
  }

  /** `t` is a non-empty piece cut from the end of `line`, shorter than the line. */
  predicate EndPiece(t: string, line: string) {
    t != [] && |t| < |line| && t == line[|line| - |t|..]
  }

  /** What a line is taken for outside a code block; the first test that succeeds decides. */
  datatype LineKind =
    | FenceLine
    | HeadingLine(level: nat, text: string)
    | BulletLine(item: string)
    | NumberedLine(item: string)
    | RuleLine
    | BlankLine
    | TextLine

  /** The order of the tests: fence, heading, unordered bullet, ordered bullet, rule, blank, paragraph. */
  function Classify(line: string): (r: LineKind)
    ensures r.HeadingLine? ==> 1 <= r.level <= 6 && EndPiece(r.text, line)
    ensures r.BulletLine? || r.NumberedLine? ==> EndPiece(r.item, line)
    ensures r.TextLine? ==> !IsBlank(line) && !IsFence(line)
  {
    if IsFence(line) then FenceLine
    else
      var header := MatchHeader(line);
      if header.Some? then HeadingLine(header.value.0, header.value.1)
      else
        var ul := MatchBullet(line);
        if ul.Some? then BulletLine(ul.value)
        else
          var ol := MatchNumbered(line);
          if ol.Some? then NumberedLine(ol.value)
          else if IsRule(line) then RuleLine
          else if IsBlank(line) then BlankLine
          else TextLine
  }

  /** The tests after the fence test, read in order. */
  lemma ClassifyAfterFence(line: string)
    requires !IsFence(line)
    ensures MatchHeader(line).Some? ==> Classify(line) == HeadingLine(MatchHeader(line).value.0, MatchHeader(line).value.1)
    ensures MatchHeader(line).None? && MatchBullet(line).Some? ==> Classify(line) == BulletLine(MatchBullet(line).value)
    ensures MatchHeader(line).None? && MatchBullet(line).None? && MatchNumbered(line).Some? ==>
      Classify(line) == NumberedLine(MatchNumbered(line).value)
    ensures MatchHeader(line).None? && MatchBullet(line).None? && MatchNumbered(line).None? ==>
      Classify(line) == if IsRule(line) then RuleLine else if IsBlank(line) then BlankLine else TextLine
  {
  }

  /** The scanner's variables, as one value. */
  datatype ScanState = ScanState(
    inCodeBlock: bool,
    codeBlockContent: seq<string>,
    listItems: seq<string>,
    listType: Option<ListKind>,
    elements: seq<Block>)

  const Start := ScanState(false, [], [], None, [])

  /**
    What the scanner keeps true between lines: `listType` is null exactly when no items are
    pending, no list is pending inside a code block, and the code buffer is empty outside one.
  */
  ghost predicate Consistent(st: ScanState) {
    (st.listType.None? <==> st.listItems == [])
    && (st.inCodeBlock ==> st.listItems == [])
    && (!st.inCodeBlock ==> st.codeBlockContent == [])
  }

  /** `listItems.map(renderInline)`. */
  function RenderItems(items: seq<string>): seq<seq<Inline>> {
    seq(|items|, k requires 0 <= k < |items| => Tokenize(items[k]))
  }

  /** Items tokenized one by one, in order, are `RenderItems` of them. */
  lemma RenderedItems(items: seq<string>, rendered: seq<seq<Inline>>)
    requires |rendered| == |items| && forall k :: 0 <= k < |items| ==> rendered[k] == Tokenize(items[k])
    ensures rendered == RenderItems(items)
  {
  }

  /** `flushList`: emit the pending list, if any, and forget it. */
  function Flush(st: ScanState): (r: ScanState)
    ensures st.elements <= r.elements && |r.elements| <= |st.elements| + 1
    ensures r.inCodeBlock == st.inCodeBlock && r.codeBlockContent == st.codeBlockContent
    ensures Consistent(st) ==> r.listItems == [] && r.listType.None?
  {
    if |st.listItems| > 0 && st.listType.Some? then
      st.(elements := st.elements + [List(st.listType.value == Ordered, RenderItems(st.listItems))],
          listItems := [], listType := None)
    else st
  }

  /** Flushing a pending list appends it, rendered, and forgets it. */
  lemma FlushPending(st: ScanState, rendered: seq<seq<Inline>>)
    requires |st.listItems| > 0 && st.listType.Some? && rendered == RenderItems(st.listItems)
    ensures Flush(st) == st.(elements := st.elements + [List(st.listType.value == Ordered, rendered)],
                             listItems := [], listType := None)
  {
  }

  /** One turn of the loop over the lines. */
  function Feed(st: ScanState, line: string): (r: ScanState)
    ensures Consistent(st) ==> Consistent(r)
    ensures st.elements <= r.elements
  {
    Step(st, line, Classify(line))
  }

  /** A line classified as `kind` is fed as `Step` says for that kind. */
  lemma FeedAsStep(st: ScanState, line: string, kind: LineKind)
    requires Classify(line) == kind
    ensures Feed(st, line) == Step(st, line, kind)
  {
  }

  /** One turn of the loop, for a line already classified as `kind`. */
  function Step(st: ScanState, line: string, kind: LineKind): (r: ScanState)
    ensures Consistent(st) ==> Consistent(r)
    ensures st.elements <= r.elements
  {
    if kind.FenceLine? then
      var f := Flush(st);
      if st.inCodeBlock then
        f.(elements := f.elements + [CodeBlock(f.codeBlockContent)], codeBlockContent := [], inCodeBlock := false)
      else f.(inCodeBlock := true)
    else if st.inCodeBlock then st.(codeBlockContent := st.codeBlockContent + [line])
    else
      match kind
      case HeadingLine(h, t) =>
        var f := Flush(st);
        f.(elements := f.elements + [Heading(h, Tokenize(t))])
      case BulletLine(item) =>
        var f := if st.listType != Some(Unordered) then Flush(st).(listType := Some(Unordered)) else st;
        f.(listItems := f.listItems + [item])
      case NumberedLine(item) =>
        var f := if st.listType != Some(Ordered) then Flush(st).(listType := Some(Ordered)) else st;
        f.(listItems := f.listItems + [item])
      case RuleLine =>
        var f := Flush(st);
        f.(elements := f.elements + [Rule])
      case BlankLine => Flush(st)
      case TextLine =>
        var f := Flush(st);
        f.(elements := f.elements + [Paragraph(Tokenize(line))])
      case FenceLine => st
  }

  /** The loop over `lines`, from state `st`. */
  function FeedAll(st: ScanState, lines: seq<string>): (r: ScanState)
    ensures st.elements <= r.elements
    decreases |lines|
  {
    if lines == [] then st else Feed(FeedAll(st, lines[..|lines| - 1]), lines[|lines| - 1])
  }

  /** After the loop: flush the pending list, then emit an unclosed code block if it holds any line. */
  function Finish(st: ScanState): (r: seq<Block>)
    ensures st.elements <= r && |r| <= |st.elements| + 2
  {
    var f := Flush(st);
    if f.inCodeBlock && |f.codeBlockContent| > 0 then f.elements + [CodeBlock(f.codeBlockContent)]
    else f.elements
  }

  /** The blocks `renderMarkdown` produces for `text`. */
  function Parse(text: string): seq<Block> {
    Finish(FeedAll(Start, SplitLines(text)))
  }

  /** The variables of one `renderMarkdown` call, shared with its `flushList` closure. */
  class MarkdownScanner {
    var inCodeBlock: bool
    var codeBlockContent: seq<string>
    var listItems: seq<string>
    var listType: Option<ListKind>
    var elements: seq<Block>

    function State(): ScanState
      reads this
    {
      ScanState(inCodeBlock, codeBlockContent, listItems, listType, elements)
    }

    ghost predicate Valid()
      reads this
    {
      Consistent(State())
    }

    constructor ()
      ensures Valid() && State() == Start
    {
      inCodeBlock := false;
      codeBlockContent := [];
      listItems := [];
      listType := None;
      elements := [];
    }

    /** `flushList`: push the pending list with its items tokenized, then reset `listItems` and `listType`. */
    method FlushList()
      requires Valid()
      modifies this
      ensures Valid() && State() == Flush(old(State()))
    {
      if |listItems| > 0 && listType.Some? {
        var rendered: seq<seq<Inline>> := [];
        for i := 0 to |listItems|
          invariant unchanged(this)
          invariant |rendered| == i
          invariant forall k :: 0 <= k < i ==> rendered[k] == Tokenize(listItems[k])
        {
          var item := RenderInline(listItems[i]);
          rendered := rendered + [item];
          assert rendered[i] == Tokenize(listItems[i]);
        }
        RenderedItems(listItems, rendered);
        FlushPending(State(), rendered);
        elements := elements + [List(listType.value == Ordered, rendered)];
        listItems := [];
        listType := None;
      }
    }

    /** The body of the loop over lines: one line changes the state as `Feed` says. */
    method ScanLine(line: string)
      requires Valid()
      modifies this
      ensures Valid() && State() == Feed(old(State()), line)
    {
      if IsFence(line) {
        if inCodeBlock {
          FlushList();
          elements := elements + [CodeBlock(codeBlockContent)];
          codeBlockContent := [];
          inCodeBlock := false;
        } else {
          FlushList();
          inCodeBlock := true;
        }
        return;
      }

      if inCodeBlock {
        codeBlockContent := codeBlockContent + [line];
        return;
      }

      ScanOutsideCode(line);
    }

    /** The rest of the loop body, for a line that is neither a fence nor inside a code block. */
    method ScanOutsideCode(line: string)
      requires Valid() && !inCodeBlock && !IsFence(line)
      modifies this
      ensures Valid() && State() == Feed(old(State()), line)
    {
      ClassifyAfterFence(line);
      var headerMatch := MatchHeader(line);
      if headerMatch.Some? {
        FeedAsStep(State(), line, HeadingLine(headerMatch.value.0, headerMatch.value.1));
        var content := RenderInline(headerMatch.value.1);
        PushAfterFlush(Heading(headerMatch.value.0, content));
        return;
      }

      var ulMatch := MatchBullet(line);
      if ulMatch.Some? {
        FeedAsStep(State(), line, BulletLine(ulMatch.value));
        AddListItem(Unordered, ulMatch.value);
        return;
      }

      var olMatch := MatchNumbered(line);
      if olMatch.Some? {
        FeedAsStep(State(), line, NumberedLine(olMatch.value));
        AddListItem(Ordered, olMatch.value);
        return;
      }

      ScanPlainLine(line);
    }

    /** The last three tests of the loop body, for a line that is no heading and no bullet. */
    method ScanPlainLine(line: string)
      requires Valid() && !inCodeBlock && !IsFence(line)
      requires MatchHeader(line).None? && MatchBullet(line).None? && MatchNumbered(line).None?
      modifies this
      ensures Valid() && State() == Feed(old(State()), line)
    {
      ClassifyAfterFence(line);
      if IsRule(line) {
        FeedAsStep(State(), line, RuleLine);
        PushAfterFlush(Rule);
        return;
      }

      if IsBlank(line) {
        FeedAsStep(State(), line, BlankLine);
        FlushList();
        return;
      }

      FeedAsStep(State(), line, TextLine);
      var content := RenderInline(line);
      PushAfterFlush(Paragraph(content));
    }

    /** `flushList(); elements.push(b)`. */
    method PushAfterFlush(b: Block)
      requires Valid()
      modifies this
      ensures Valid()
      ensures State() == Flush(old(State())).(elements := Flush(old(State())).elements + [b])
    {
      FlushList();
      elements := elements + [b];
    }

    /** A bullet line: a bullet of another kind (or none pending) starts a new list; the item joins the pending one. */
    method AddListItem(kind: ListKind, item: string)
      requires Valid() && !inCodeBlock
      modifies this
      ensures Valid()
      ensures State() == Step(old(State()), "", if kind == Unordered then BulletLine(item) else NumberedLine(item))
    {
      if listType != Some(kind) {
        FlushList();
        listType := Some(kind);
      }
      listItems := listItems + [item];
    }

    /** After the last line: flush the pending list and emit an unclosed, non-empty code block. */
    method EndOfInput()
      requires Valid()
      modifies this
      ensures elements == Finish(old(State()))
    {
      FlushList();
      if inCodeBlock && |codeBlockContent| > 0 {
        elements := elements + [CodeBlock(codeBlockContent)];
      }
    }
  }

  /** One more line of the loop: the fold over the first `i + 1` lines. */
  lemma FeedAllPrefix(st: ScanState, lines: seq<string>, i: nat)
    requires i < |lines|
    ensures FeedAll(st, lines[..i + 1]) == Feed(FeedAll(st, lines[..i]), lines[i])
  {
    assert lines[..i + 1][..i] == lines[..i];
  }

  /**
    `renderMarkdown`: split the text on line feeds, run the scanner over every line, then
    deal with what is still pending at the end of the input.
  */
  method RenderMarkdown(text: string) returns (blocks: seq<Block>)
    ensures blocks == Parse(text)
  {
    var lines := SplitLines(text);
    var scanner := new MarkdownScanner();
    for i := 0 to |lines|
      invariant scanner.Valid()
      invariant scanner.State() == FeedAll(Start, lines[..i])
    {
      scanner.ScanLine(lines[i]);
      FeedAllPrefix(Start, lines, i);
    }
    assert lines[..|lines|] == lines;
    scanner.EndOfInput();
    blocks := scanner.elements;
  }
}
