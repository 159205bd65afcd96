# Markdown renderer: a verified model of its parser

The `MarkdownRenderer` component turns a Markdown string into React elements. It does this in two layers:

- **`renderMarkdown`** splits the text at `"\n"` and walks the lines once. It keeps five pieces of mutable
  state: `inCodeBlock`, `codeBlockContent`, `listItems`, `listType` and `elements`. Each line is a code
  fence, a line inside a code block, a heading (`#` to `######`), a bullet item (`-` or `*`), a numbered
  item (`1.`), a horizontal rule, a blank line, or a paragraph. List items collect until `flushList`
  emits them as one list.
- **`renderInline`** cuts one line into text runs, bold spans (`**…**` or `__…__`), italic spans (`*…*` or
  `_…_`) and code spans (`` `…` ``). It runs a loop that tries three regular expressions in that order
  on the rest of the line.

This project models both layers in Dafny and proves properties of them.

- `Strings.dfy`: what the parser uses from JavaScript strings. This covers the `\s` white-space set, the
  characters `.` matches, `trim`, and `split("\n")` with its inverse `join("\n")`.
- `InlineTokenizer.dfy`: the three patterns as search functions with their exact matching rules. A
  match is the leftmost start, then the shortest content for the lazy `+?`, and the `\2` closing
  delimiter must equal the opening one.
  - `NextSpan` is one pass of the loop body, including the italic guard.
  - `Tokenize` is the whole result, as a specification function.
  - The method `RenderInline` is the `while` loop itself, proved equal to `Tokenize`.
- `InlineProperties.dfy`: what one pass produces, for each of bold, italic, code and plain text.
- `BlockScanner.dfy`: the line patterns and the line classifier.
  - `Feed`, `Step` and `Finish` are the loop over the lines, written as a fold over a `ScanState`
    value.
  - The class `MarkdownScanner` holds the closure's mutable variables as fields. Its methods are
    `flushList`, one loop iteration, and the final flush.
  - The method `RenderMarkdown` is proved equal to the specification `Parse`.
- `BlockProperties.dfy`: the line patterns characterised as regular-expression matches, plus the
  fence, list and paragraph behaviour of the loop.
- `Examples.dfy`: concrete inputs that pin down the less obvious rules.

The rendered output is abstracted to a `Block` value: `Heading`, `Paragraph`, `List`, `CodeBlock` or
`Rule`. The inline output is a sequence of `Inline` nodes: `Text`, `Bold`, `Italic` or `Code`.

Where idealised Markdown and the code differ, the model follows the code. Each of these behaviours is
proved, in `Examples.dfy` unless another member is named:

- The italic guard refuses a match whose prefix ends in `*` **or** `_`, whichever delimiter the match
  uses.
- The guard refuses only the first match. The italic pattern is not retried further on, so `*_a_` stays
  plain text.
- `****` renders as an italic `*` followed by the text `*`.
- `snake_case_word` renders with an italic middle part.
- `` `**a**` `` renders as the bold span `a` between two literal backticks, because bold is tried
  before code.
- `- - -` is a bullet item with the text `- -`, not a rule, because the list patterns are tried before
  the rule test.
- A line of seven `#` is not a heading (`BlockProperties.SevenHashesNotHeading`).

## Model

| member | source | states |
|---|---|---|
| Strings.IsWhitespace | appandrunning/app/components/MarkdownRenderer.tsx:178 | has no contract of its own; the JavaScript white-space set of `\s` and `trim()`; Strings.TrimEmptyIffWhitespace and Strings.TrimSlice state what `trim` does with it |
| Strings.IsLineChar | appandrunning/app/components/MarkdownRenderer.tsx:131 | has no contract of its own; the `.` of a regular expression without the `s` flag; BlockProperties.SpaceThenTextSpec states the `(.+)$` capture through it |
| Strings.TrimStart | appandrunning/app/components/MarkdownRenderer.tsx:178 | the result is a suffix of the input, everything cut off is white space, and the result does not start with white space |
| Strings.TrimEnd | appandrunning/app/components/MarkdownRenderer.tsx:178 | the result is a prefix of the input, everything cut off is white space, and the result does not end with white space |
| Strings.TrimSlice | appandrunning/app/components/MarkdownRenderer.tsx:178 | `trim()` is the slice of the line between its leading and trailing white space, with non-white-space characters at both ends |
| Strings.Trim | appandrunning/app/components/MarkdownRenderer.tsx:178 | `trim()` is no longer than the line and has no white space at either end; Strings.TrimSlice places it between the leading and trailing white space |
| Strings.TrimEmptyIffWhitespace | appandrunning/app/components/MarkdownRenderer.tsx:185 | `line.trim() === ""` holds exactly when every character of the line is white space |
| Strings.SplitLines | appandrunning/app/components/MarkdownRenderer.tsx:15 | `split("\n")` yields at least one piece and no piece contains a newline |
| Strings.JoinSplitLines | appandrunning/app/components/MarkdownRenderer.tsx:15 | joining the lines with `"\n"` gives back the original text |
| Strings.SplitJoinLines | appandrunning/app/components/MarkdownRenderer.tsx:112 | splitting newline-free lines joined with `"\n"` gives back those lines |
| Strings.SplitFirstLine | appandrunning/app/components/MarkdownRenderer.tsx:15 | text before the first newline is the first line and the rest splits independently |
| InlineTokenizer.FindBold | appandrunning/app/components/MarkdownRenderer.tsx:50 | the match found is a bold match (same doubled delimiter on both sides, non-empty content), and it precedes every other bold match (leftmost start, then shortest content); no match is found only when none exists |
| InlineTokenizer.FindItalic | appandrunning/app/components/MarkdownRenderer.tsx:63 | the same for the single-delimiter italic pattern |
| InlineTokenizer.FindCode | appandrunning/app/components/MarkdownRenderer.tsx:76 | the same for a backtick span whose content holds no backtick |
| InlineTokenizer.BoldSplit | appandrunning/app/components/MarkdownRenderer.tsx:50-58 | cut at the match `m`: the prefix is the text before `m`, the node's delimiter and content are the characters at `m` and the `m.len` after the opening pair, the rest follows the closing pair; the pieces reassemble the string and the node is a well-formed bold node |
| InlineTokenizer.ItalicSplit | appandrunning/app/components/MarkdownRenderer.tsx:63-71 | cut at the match `m`: prefix before `m`, delimiter and the `m.len` content characters after it, rest after the closing delimiter; they reassemble the string and the node is a well-formed italic node |
| InlineTokenizer.CodeSplit | appandrunning/app/components/MarkdownRenderer.tsx:76-87 | cut at the match `m`: prefix before `m`, the `m.len` characters between the backticks as content, rest after the closing backtick; they reassemble the string and the content is non-empty and free of backticks |
| InlineTokenizer.Lead | appandrunning/app/components/MarkdownRenderer.tsx:52 | the prefix pushed before a span (only when non-empty) renders back to that prefix |
| InlineTokenizer.MatchBold | appandrunning/app/components/MarkdownRenderer.tsx:50-51 | `match` succeeds exactly when FindBold finds the leftmost-then-shortest match; its prefix is the text before that match and its content has that match's length; prefix, `**`content`**` (or `__`) and rest reassemble the line |
| InlineTokenizer.MatchItalic | appandrunning/app/components/MarkdownRenderer.tsx:63 | the same for the italic pattern and FindItalic, before the guard is applied |
| InlineTokenizer.MatchCode | appandrunning/app/components/MarkdownRenderer.tsx:76-77 | the same for the code pattern and FindCode, with content free of backticks |
| InlineTokenizer.Tokenize | appandrunning/app/components/MarkdownRenderer.tsx:42-97 | has no contract of its own; the parts `renderInline` returns, characterised by InlineTokenizer.TokenizeRoundTrip, InlineTokenizer.TokenizeWellFormed and the InlineProperties lemmas |
| InlineTokenizer.NextSpan | appandrunning/app/components/MarkdownRenderer.tsx:48-93 | one pass of the loop, when it finds a span, cuts the rest of the line into prefix, a non-text well-formed span and the remainder, which concatenate back to it |
| InlineTokenizer.RenderInline | appandrunning/app/components/MarkdownRenderer.tsx:42-97 | the `while` loop returns exactly `Tokenize(line)`; its parts render back to the line, and the parts are well formed: no empty text, no empty emphasis, no two adjacent text runs |
| InlineTokenizer.PassAdvances | appandrunning/app/components/MarkdownRenderer.tsx:48-59 | the loop invariant step: after pushing the prefix and the span, the parts pushed plus the tokens of the remainder still equal the tokens of the whole line |
| InlineTokenizer.LastPass | appandrunning/app/components/MarkdownRenderer.tsx:91-93 | when no pattern fires, the rest of the line becomes a single text part |
| InlineTokenizer.TokenizeUnfold | appandrunning/app/components/MarkdownRenderer.tsx:48-89 | when a pass finds a span, the result is the prefix, the span and the result for the remainder |
| InlineTokenizer.TokenizeRoundTrip | appandrunning/app/components/MarkdownRenderer.tsx:48-94 | rendering the parts back to Markdown gives the line unchanged: no character is lost or duplicated |
| InlineTokenizer.TokenizeWellFormed | appandrunning/app/components/MarkdownRenderer.tsx:48-94 | every part is well formed and two text parts are never adjacent |
| InlineTokenizer.LeadSpanWellFormed | appandrunning/app/components/MarkdownRenderer.tsx:52-57 | a prefix, a non-text span and a well-formed rest form a well-formed sequence |
| InlineTokenizer.ConcatAppend | appandrunning/app/components/MarkdownRenderer.tsx:44-92 | rendering two runs of parts one after the other renders their concatenation |
| InlineProperties.BoldPass | appandrunning/app/components/MarkdownRenderer.tsx:50-59 | when a bold match exists, a pass takes the first one (bold has priority over italic and code) |
| InlineProperties.TokenizeFirstBold | appandrunning/app/components/MarkdownRenderer.tsx:48-59 | the result is then the prefix, the bold span of that first match, and the tokens of what follows it |
| InlineProperties.ItalicPass | appandrunning/app/components/MarkdownRenderer.tsx:63-72 | with no bold match, the first italic match whose prefix does not end in `*` or `_` is taken |
| InlineProperties.TokenizeFirstItalic | appandrunning/app/components/MarkdownRenderer.tsx:63-72 | the result is then the prefix, that italic span and the tokens of what follows |
| InlineProperties.ItalicFallsThrough | appandrunning/app/components/MarkdownRenderer.tsx:63-76 | when the first italic match is refused by the guard (or there is none), the pass is decided by the code pattern alone |
| InlineProperties.CodePass | appandrunning/app/components/MarkdownRenderer.tsx:76-88 | with bold absent and italic blocked, the first code match is taken |
| InlineProperties.TokenizeFirstCode | appandrunning/app/components/MarkdownRenderer.tsx:76-88 | the result is then the prefix, that code span and the tokens of what follows |
| InlineProperties.TokenizePlain | appandrunning/app/components/MarkdownRenderer.tsx:91-93 | when no pattern fires, a non-empty line is one text part |
| InlineProperties.TokenizeNoMarkers | appandrunning/app/components/MarkdownRenderer.tsx:48-93 | a non-empty line without `*`, `_` or a backtick is one text part |
| BlockScanner.SpaceThenText | appandrunning/app/components/MarkdownRenderer.tsx:131 | the captured `(.+)` after `\s+` is a non-empty suffix of line characters, shorter than the tail it was taken from |
| BlockScanner.MatchHeader | appandrunning/app/components/MarkdownRenderer.tsx:131 | the heading level is 1 to 6 and counts only `#`; the heading text is a non-empty suffix of the line after the `#` run; characterised in both directions by BlockProperties.MatchHeaderSpec |
| BlockScanner.MatchBullet | appandrunning/app/components/MarkdownRenderer.tsx:156 | the item is a non-empty suffix of the line, leaving room for the marker and at least one white-space character; characterised by BlockProperties.MatchBulletSpec |
| BlockScanner.MatchNumbered | appandrunning/app/components/MarkdownRenderer.tsx:167 | the item is a non-empty suffix of the line, leaving room for a digit, the dot and white space; characterised by BlockProperties.MatchNumberedSpec |
| BlockScanner.IsRule | appandrunning/app/components/MarkdownRenderer.tsx:178 | has no contract of its own; BlockProperties.RuleIffTrimmedRule proves it equal to `/^[-*_]{3,}$/` on the trimmed line |
| BlockScanner.IsBlank | appandrunning/app/components/MarkdownRenderer.tsx:185 | has no contract of its own; Strings.TrimEmptyIffWhitespace proves it equal to `line.trim() === ""` |
| BlockScanner.IsFence | appandrunning/app/components/MarkdownRenderer.tsx:103 | has no contract of its own; `line.startsWith("```")`, which BlockProperties.ClassifyFence shows is tested before anything else |
| BlockScanner.Classify | appandrunning/app/components/MarkdownRenderer.tsx:103-196 | the tests in the loop's order: fence, header, bullet, numbered, rule, blank, then paragraph (unfolded by BlockScanner.ClassifyAfterFence and BlockProperties.ClassifyFence); its contract: a heading has level 1 to 6 and non-empty text taken from the end of the line, a list item is non-empty text from the end of the line, and a paragraph line is never blank and never a fence |
| BlockScanner.RenderItems | appandrunning/app/components/MarkdownRenderer.tsx:30-34 | has no contract of its own; `listItems.map(renderInline)`, matched item by item by BlockScanner.RenderedItems |
| BlockScanner.Flush | appandrunning/app/components/MarkdownRenderer.tsx:22-40 | `flushList` keeps the emitted blocks as a prefix and adds at most one; it leaves the code-block state alone; on a consistent state it clears the pending items and the list type; BlockScanner.FlushPending states that the block added is the pending list, ordered or not, with its items rendered inline |
| BlockScanner.FeedAll | appandrunning/app/components/MarkdownRenderer.tsx:99-197 | the `for` loop over the lines: blocks once emitted are never changed or removed by later lines |
| BlockScanner.Finish | appandrunning/app/components/MarkdownRenderer.tsx:199-212 | the end of input keeps every emitted block and adds at most two: the pending list and an unclosed code block |
| BlockScanner.Parse | appandrunning/app/components/MarkdownRenderer.tsx:14-215 | has no contract of its own; the whole of `renderMarkdown`, equal to the loop by BlockScanner.RenderMarkdown and bounded by BlockProperties.BlocksAtMostLines |
| BlockScanner.RenderedItems | appandrunning/app/components/MarkdownRenderer.tsx:30-34 | rendering each item inline, item by item, is `listItems.map(renderInline)` |
| BlockScanner.Feed | appandrunning/app/components/MarkdownRenderer.tsx:99-197 | one iteration keeps the state consistent: a list type exactly when items are pending, no items inside a code block, no code lines outside one |
| BlockScanner.Step | appandrunning/app/components/MarkdownRenderer.tsx:103-196 | the same consistency for each kind of line |
| BlockScanner.MarkdownScanner.constructor | appandrunning/app/components/MarkdownRenderer.tsx:16-20 | the initial state: no code block, no pending items or list type, no elements |
| BlockScanner.MarkdownScanner.FlushList | appandrunning/app/components/MarkdownRenderer.tsx:22-40 | the pending items, if any, are appended as one list of their kind with each item rendered inline, and the list state is cleared |
| BlockScanner.MarkdownScanner.ScanLine | appandrunning/app/components/MarkdownRenderer.tsx:99-197 | one iteration of the loop changes the fields exactly as the fold step does |
| BlockScanner.MarkdownScanner.ScanOutsideCode | appandrunning/app/components/MarkdownRenderer.tsx:130-175 | the header, bullet and numbered branches change the fields as the fold step does |
| BlockScanner.MarkdownScanner.ScanPlainLine | appandrunning/app/components/MarkdownRenderer.tsx:177-196 | the rule, blank and paragraph branches change the fields as the fold step does |
| BlockScanner.MarkdownScanner.PushAfterFlush | appandrunning/app/components/MarkdownRenderer.tsx:133-151 | flushing the list and then pushing a block appends that block after the flushed list |
| BlockScanner.MarkdownScanner.AddListItem | appandrunning/app/components/MarkdownRenderer.tsx:155-175 | a list item of the pending kind is appended; an item of another kind first flushes the list and switches the kind |
| BlockScanner.MarkdownScanner.EndOfInput | appandrunning/app/components/MarkdownRenderer.tsx:199-212 | the final flush emits the pending list, then an unclosed code block that holds lines |
| BlockScanner.RenderMarkdown | appandrunning/app/components/MarkdownRenderer.tsx:14-215 | the imperative loop over the lines returns exactly the blocks of the specification `Parse` |
| BlockProperties.SpaceThenTextSpec | appandrunning/app/components/MarkdownRenderer.tsx:131 | `\s+(.+)$` matches exactly when some split leaves white space then line characters; the capture is the one with the most white space (greedy `\s+`) |
| BlockProperties.MatchHeaderSpec | appandrunning/app/components/MarkdownRenderer.tsx:131-135 | a line is a header exactly when 1 to 6 `#` are followed by white space and text; the level is the whole run of `#`, and the text is the capture |
| BlockProperties.SevenHashesNotHeading | appandrunning/app/components/MarkdownRenderer.tsx:131 | seven or more leading `#` never make a header |
| BlockProperties.MatchBulletSpec | appandrunning/app/components/MarkdownRenderer.tsx:156 | a line is a bullet item exactly when optional white space, `-` or `*`, white space and text form it; the item is the text capture |
| BlockProperties.MatchNumberedSpec | appandrunning/app/components/MarkdownRenderer.tsx:167 | a line is a numbered item exactly when optional white space, digits, `.`, white space and text form it; the item is the text capture |
| BlockProperties.RuleIffTrimmedRule | appandrunning/app/components/MarkdownRenderer.tsx:178 | the rule test used by the model holds exactly when the trimmed line is three or more of `-`, `*`, `_` |
| BlockProperties.FeedAllAppend | appandrunning/app/components/MarkdownRenderer.tsx:99 | scanning two runs of lines in turn is scanning their concatenation |
| BlockProperties.FeedAllConsistent | appandrunning/app/components/MarkdownRenderer.tsx:99-197 | the state stays consistent across any number of lines |
| BlockProperties.FeedAllPending | appandrunning/app/components/MarkdownRenderer.tsx:99-197 | each line adds at most one block, counting the pending list and the open code block |
| BlockProperties.BlocksAtMostLines | appandrunning/app/components/MarkdownRenderer.tsx:14-215 | the output never has more blocks than the text has lines |
| BlockProperties.ParseEmpty | appandrunning/app/components/MarkdownRenderer.tsx:184-188 | the empty text renders to no blocks |
| BlockProperties.ClassifyBlank | appandrunning/app/components/MarkdownRenderer.tsx:184-188 | a white-space-only line is never a fence, heading, bullet, numbered item or rule: it is classified blank |
| BlockProperties.FeedBlank | appandrunning/app/components/MarkdownRenderer.tsx:184-188 | outside a code block a blank line emits nothing of its own; it only flushes the pending list |
| BlockProperties.ClassifyFence | appandrunning/app/components/MarkdownRenderer.tsx:103 | a line is treated as a fence exactly when it starts with three backticks |
| BlockProperties.FeedInCode | appandrunning/app/components/MarkdownRenderer.tsx:125-128 | inside a code block a non-fence line is appended to the code lines and nothing else changes |
| BlockProperties.FeedFence | appandrunning/app/components/MarkdownRenderer.tsx:103-123 | an opening fence flushes the list and opens a code block; a closing fence emits the code block and clears it |
| BlockProperties.CodeLinesVerbatim | appandrunning/app/components/MarkdownRenderer.tsx:125-128 | inside a code block every non-fence line, whatever it looks like, is kept verbatim and in order |
| BlockProperties.OpenFenceThenLines | appandrunning/app/components/MarkdownRenderer.tsx:117-128 | an opening fence followed by non-fence lines leaves exactly those lines buffered, after the list flushed |
| BlockProperties.FencedBlock | appandrunning/app/components/MarkdownRenderer.tsx:103-128 | fence, lines, fence gives one code block of exactly those lines, after the flushed list |
| BlockProperties.UnclosedFence | appandrunning/app/components/MarkdownRenderer.tsx:202-212 | a fence left open at the end still yields its lines as a code block, unless it holds none |
| BlockProperties.FeedItem | appandrunning/app/components/MarkdownRenderer.tsx:155-175 | a list line extends the pending list of its kind, or flushes the other kind first |
| BlockProperties.ListRun | appandrunning/app/components/MarkdownRenderer.tsx:155-175 | a run of list lines of one kind appends all their items, in order, to one pending list |
| BlockProperties.FinishList | appandrunning/app/components/MarkdownRenderer.tsx:199-200 | at the end, pending items become one list block of their kind |
| BlockProperties.ListGrouped | appandrunning/app/components/MarkdownRenderer.tsx:155-175 | consecutive list items of one kind end up as a single list holding all of them in order |
| BlockProperties.ListEnds | appandrunning/app/components/MarkdownRenderer.tsx:130-196 | any line that is not an item of the pending kind emits the pending list first |
| BlockProperties.StepText | appandrunning/app/components/MarkdownRenderer.tsx:190-196 | a text line flushes the list and becomes one paragraph of its inline rendering |
| BlockProperties.ParagraphsNotMerged | appandrunning/app/components/MarkdownRenderer.tsx:190-196 | two consecutive text lines give two paragraphs, not one |
| BlockProperties.FeedAllParagraphs | appandrunning/app/components/MarkdownRenderer.tsx:99-197 | every paragraph emitted while scanning is one of the lines scanned |
| BlockProperties.ParagraphsAreLines | appandrunning/app/components/MarkdownRenderer.tsx:190-196 | every paragraph of the output renders back to exactly one line of the input |
| Examples.BoldOnly | appandrunning/app/components/MarkdownRenderer.tsx:50 | `**a**` is a single bold part |
| Examples.FourStars | appandrunning/app/components/MarkdownRenderer.tsx:50-73 | `****` is an italic `*` followed by the text `*` |
| Examples.BoldInsideCode | appandrunning/app/components/MarkdownRenderer.tsx:50-76 | bold is tried before code, so `` `**a**` `` is a backtick, bold `a`, a backtick |
| Examples.IntrawordUnderscores | appandrunning/app/components/MarkdownRenderer.tsx:63-72 | `a_b_c` with plain non-empty parts renders its middle part in italics |
| Examples.GuardNoRetry | appandrunning/app/components/MarkdownRenderer.tsx:63-64 | `*_a_` stays plain text: the guard refuses the first italic match and no later one is tried |
| Examples.EmptyCodeBlocks | appandrunning/app/components/MarkdownRenderer.tsx:103-123 | a fence closed at once gives a code block of no lines; a fence around one empty line gives a block of one empty line |
| Examples.ClassifyDashes | appandrunning/app/components/MarkdownRenderer.tsx:178 | `---` is a rule |
| Examples.ClassifyStars | appandrunning/app/components/MarkdownRenderer.tsx:156-178 | `***` is a rule, not a bullet item, because no white space follows the first `*` |
| Examples.ClassifySpacedDashes | appandrunning/app/components/MarkdownRenderer.tsx:156 | `- - -` is a bullet item with the text `- -` |
| Examples.ClassifyTitle | appandrunning/app/components/MarkdownRenderer.tsx:131 | `# Title` is a level-1 heading with the text `Title` |
| Examples.ClassifyHashWord | appandrunning/app/components/MarkdownRenderer.tsx:131 | `#x` is a paragraph: the header needs white space after the `#` |
| Examples.ClassifyNumbered | appandrunning/app/components/MarkdownRenderer.tsx:167 | `12. item` is a numbered item with the text `item` |
| Examples.ListKindChangeSplits | appandrunning/app/components/MarkdownRenderer.tsx:155-175 | two bullets then a numbered item give two lists: a change of kind flushes the pending list |

## Left out

- `PageSelector.tsx` and everything outside `MarkdownRenderer.tsx` are not part of this model.
- The React output is not modelled. This covers the JSX elements, their `key` and `className` props,
  the heading-class table, and the surrounding `div`. The output is abstracted to `Block` and `Inline`
  values.
- The final unwrapping in `renderInline`, where one part is returned bare instead of as a fragment, is
  not modelled. It changes the React tree, not the content.
- A code block is kept as its sequence of lines, not as the `join("\n")` string, so the model keeps
  more than the output shows. A fence closed at once gives `CodeBlock([])`, and a fence around one
  empty line gives `CodeBlock([""])` (`Examples.EmptyCodeBlocks`). Both render as the same empty
  text, because `[].join("\n")` and `[""].join("\n")` are both `""`. For one or more lines, the
  lines and the joined string determine each other: no line contains a newline
  (`Strings.SplitLines`), and splitting the joined string gives the lines back
  (`Strings.SplitJoinLines`).
- Characters are Dafny's Unicode scalar values, not JavaScript's UTF-16 code units. The parser only
  compares characters with ASCII markers, the white-space set of `\s` and the line terminators that
  `.` excludes, so a surrogate pair behaves like any other non-marker text.
- BlockScanner.IsRule: the rule test is stated on the untrimmed line (white space, then three or more
  of `-`, `*`, `_`, then white space). `BlockProperties.RuleIffTrimmedRule` proves this equivalent to
  the pattern applied to `line.trim()`.
- BlockScanner.IsBlank: likewise stated as "every character is white space".
  `Strings.TrimEmptyIffWhitespace` proves this equivalent to `line.trim() === ""`.
