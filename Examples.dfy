/**
  Worked inputs for `renderInline` and the line classifier, derived from the characterization
  lemmas: each shows one rule of the patterns (priority, laziness, the italic guard).

  The longer examples take their input as a parameter `s` fixed by a `requires`, and split the
  proof into a search step (which match each pattern finds) and an assembly step (the tokens that
  follow). Stating the literal inside one lemma puts every index of it in front of the solver at
  once, which makes such proofs slow and unstable; the parameter keeps each step small.
*/
module Examples {
  import opened Wrappers
  import opened Strings
  import opened InlineTokenizer
  import opened InlineProperties
  import opened BlockScanner
  import opened BlockProperties

  /** `**a**` is one bold span. */
  lemma BoldOnly()
    ensures Tokenize("**a**") == [Bold('*', "a")]
  {
    var s := "**a**";
    assert FirstBold(s, 0, 1);
    TokenizeFirstBold(s, 0, 1);
    assert s[..0] == [] && s[2..3] == "a" && s[5..] == [];
    assert Lead([]) == [] && Tokenize([]) == [];
  }

  /** A lone `*` matches nothing. */
  lemma OneStar()
    ensures Tokenize("*") == [Text("*")]
  {
    assert NoBold("*") && ItalicBlocked("*") && NoCode("*");
    TokenizePlain("*");
  }

  /** `****` has no bold match (bold needs content); the italic pattern takes `*` as content. */
  lemma FourStars(s: string)
    requires s == "****"
    ensures Tokenize(s) == [Italic('*', "*"), Text("*")]
  {
    FourStarsSearch(s);
    StarItalicThenStar(s);
  }

  lemma FourStarsSearch(s: string)
    requires s == "****"
    ensures NoBold(s) && FirstItalic(s, 0, 1) && s[1..2] == "*" && s[3..] == "*"
  {
    assert NoBold(s);
    assert FirstItalic(s, 0, 1);
  }

  /** The italic `*…*` taking the first three characters, then a lone `*`. */
  lemma StarItalicThenStar(s: string)
    requires |s| == 4 && s[0] == '*' && NoBold(s) && FirstItalic(s, 0, 1) && s[1..2] == "*" && s[3..] == "*"
    ensures Tokenize(s) == [Italic('*', "*"), Text("*")]
  {
    TokenizeFirstItalic(s, 0, 1);
    ItalicThenStar(s, s[..0], Italic(s[0], s[1..2]), s[3..]);
  }

  lemma ItalicThenStar(s: string, a: string, node: Inline, c: string)
    requires a == [] && node == Italic('*', "*") && c == "*"
    requires Tokenize(s) == Lead(a) + [node] + Tokenize(c)
    ensures Tokenize(s) == [Italic('*', "*"), Text("*")]
  {
    OneStar();
    SpanThenText(s, node, c);
  }

  /** No text before a span, and a plain remainder. */
  lemma SpanThenText(s: string, node: Inline, c: string)
    requires Tokenize(c) == [Text(c)] && Tokenize(s) == Lead([]) + [node] + Tokenize(c)
    ensures Tokenize(s) == [node, Text(c)]
  {
  }

  /**
    Bold is searched over the whole remainder before code: in `` `**a**` `` the backticks do not
    protect the bold span, which is cut out between two one-character text runs.
  */
  lemma BoldInsideCode(s: string)
    requires s == "`**a**`"
    ensures Tokenize(s) == [Text("`"), Bold('*', "a"), Text("`")]
  {
    BoldInsideCodeSearch(s);
    OneBacktick(s[6..]);
    TextBoldText(s);
  }

  lemma BoldInsideCodeSearch(s: string)
    requires s == "`**a**`"
    ensures FirstBold(s, 1, 1) && s[..1] == "`" && s[1] == '*' && s[3..4] == "a" && s[6..] == "`"
  {
    assert FirstBold(s, 1, 1);
  }

  lemma OneBacktick(s: string)
    requires s == "`"
    ensures Tokenize(s) == [Text(s)]
  {
    assert NoBold(s) && ItalicBlocked(s) && NoCode(s);
    TokenizePlain(s);
  }

  lemma TextBoldText(s: string)
    requires |s| == 7 && FirstBold(s, 1, 1) && s[..1] == "`" && s[1] == '*' && s[3..4] == "a" && s[6..] == "`"
    requires Tokenize(s[6..]) == [Text(s[6..])]
    ensures Tokenize(s) == [Text("`"), Bold('*', "a"), Text("`")]
  {
    TokenizeFirstBold(s, 1, 1);
    ThreePieces(s, s[..1], Bold(s[1], s[3..4]), s[6..]);
  }

  /** No `*`, `_` or backtick in `s`. */
  predicate Unmarked(s: string) {
    forall k :: 0 <= k < |s| ==> s[k] != '*' && s[k] != '_' && s[k] != '`'
  }

  lemma IntrawordLayout(a: string, b: string, c: string, s: string)
    requires s == a + "_" + b + "_" + c
    ensures |s| == |a| + |b| + |c| + 2
    ensures forall k :: 0 <= k < |a| ==> s[k] == a[k]
    ensures s[|a|] == '_' && s[|a| + |b| + 1] == '_'
    ensures forall k :: 0 <= k < |b| ==> s[|a| + 1 + k] == b[k]
    ensures forall k :: 0 <= k < |c| ==> s[|a| + |b| + 2 + k] == c[k]
  {
  }

  lemma IntrawordNoBold(a: string, b: string, c: string, s: string)
    requires b != [] && c != [] && Unmarked(a) && Unmarked(b) && Unmarked(c)
    requires s == a + "_" + b + "_" + c
    ensures NoBold(s)
  {
    var p, n := |a|, |b|;
    IntrawordLayout(a, b, c, s);
    forall q: nat, m: nat | BoldAt(s, q, m) ensures false {
    }
  }

  lemma IntrawordFirstItalic(a: string, b: string, c: string, s: string)
    requires b != [] && Unmarked(a) && Unmarked(b)
    requires s == a + "_" + b + "_" + c
    ensures FirstItalic(s, |a|, |b|)
  {
    var p, n := |a|, |b|;
    IntrawordLayout(a, b, c, s);
    forall q: nat, m: nat | ItalicAt(s, q, m) ensures Precedes(Span(p, n), q, m) {
    }
  }

  lemma IntrawordPieces(a: string, b: string, c: string, s: string)
    requires s == a + "_" + b + "_" + c
    ensures s[..|a|] == a && s[|a|] == '_' && s[|a| + 1..|a| + 1 + |b|] == b && s[|a| + |b| + 2..] == c
  {
    IntrawordLayout(a, b, c, s);
  }

  /** A text run, one span, and a plain remainder. */
  lemma ThreePieces(s: string, a: string, node: Inline, c: string)
    requires a != [] && Tokenize(c) == [Text(c)]
    requires Tokenize(s) == Lead(a) + [node] + Tokenize(c)
    ensures Tokenize(s) == [Text(a), node, Text(c)]
  {
  }

  /** One italic pass between two plain runs. */
  ghost predicate ItalicThenPlainShape(s: string, p: nat, n: nat) {
    NoBold(s) && FirstItalic(s, p, n) && 0 < p && p + n + 2 < |s|
    && !EndsWithEmphasis(s[..p]) && Unmarked(s[p + n + 2..])
  }

  lemma ItalicThenPlain(s: string, p: nat, n: nat)
    requires ItalicThenPlainShape(s, p, n)
    ensures Tokenize(s) == [Text(s[..p]), Italic(s[p], s[p + 1..p + 1 + n]), Text(s[p + n + 2..])]
  {
    TokenizeFirstItalic(s, p, n);
    var c := s[p + n + 2..];
    TokenizeNoMarkers(c);
    ThreePieces(s, s[..p], Italic(s[p], s[p + 1..p + 1 + n]), c);
  }

  lemma IntrawordSearch(a: string, b: string, c: string, s: string)
    requires a != [] && b != [] && c != []
    requires Unmarked(a) && Unmarked(b) && Unmarked(c)
    requires s == a + "_" + b + "_" + c
    ensures NoBold(s) && FirstItalic(s, |a|, |b|)
  {
    IntrawordNoBold(a, b, c, s);
    IntrawordFirstItalic(a, b, c, s);
  }

  lemma IntrawordGuard(a: string, b: string, c: string, s: string)
    requires a != [] && b != [] && c != []
    requires Unmarked(a) && Unmarked(b) && Unmarked(c)
    requires s == a + "_" + b + "_" + c
    ensures !EndsWithEmphasis(s[..|a|]) && |a| + |b| + 2 < |s| && Unmarked(s[|a| + |b| + 2..])
  {
    IntrawordPieces(a, b, c, s);
  }

  lemma IntrawordShape(a: string, b: string, c: string, s: string)
    requires a != [] && b != [] && c != []
    requires Unmarked(a) && Unmarked(b) && Unmarked(c)
    requires s == a + "_" + b + "_" + c
    ensures ItalicThenPlainShape(s, |a|, |b|) && UnderscoreCut(s, |a|, |b|, a, b, c)
  {
    IntrawordSearch(a, b, c, s);
    IntrawordGuard(a, b, c, s);
    IntrawordPieces(a, b, c, s);
  }

  /** The line cut at `p` and `p + n + 1` into `a`, two underscores around `b`, and `c`. */
  ghost predicate UnderscoreCut(s: string, p: nat, n: nat, a: string, b: string, c: string) {
    p + n + 2 <= |s| && s[..p] == a && s[p] == '_' && s[p + 1..p + 1 + n] == b && s[p + n + 2..] == c
  }

  lemma IntrawordResult(s: string, p: nat, n: nat, a: string, b: string, c: string)
    requires ItalicThenPlainShape(s, p, n) && UnderscoreCut(s, p, n, a, b, c)
    ensures Tokenize(s) == [Text(a), Italic('_', b), Text(c)]
  {
    ItalicThenPlain(s, p, n);
  }

  /**
    Underscores inside a word are italic delimiters, as in `snake_case_name`: two underscores
    around a marker-free middle give an italic span, with the text on either side kept as is.
  */
  lemma IntrawordUnderscores(a: string, b: string, c: string, s: string)
    requires a != [] && b != [] && c != []
    requires Unmarked(a) && Unmarked(b) && Unmarked(c)
    requires s == a + "_" + b + "_" + c
    ensures Tokenize(s) == [Text(a), Italic('_', b), Text(c)]
  {
    IntrawordShape(a, b, c, s);
    IntrawordResult(s, |a|, |b|, a, b, c);
  }

  /**
    The italic guard refuses the engine's first italic match and no later position is tried:
    in `*_a_` the first match is `_a_`, preceded by `*`, so the whole line stays text.
  */
  lemma GuardNoRetry(s: string)
    requires s == "*_a_"
    ensures Tokenize(s) == [Text(s)]
  {
    assert FirstItalic(s, 1, 1);
    forall p: nat, n: nat | FirstItalic(s, p, n) ensures p <= |s| && EndsWithEmphasis(s[..p]) {
      PrecedesAntisymmetric(Span(1, 1), p, n);
    }
    assert NoBold(s) && NoCode(s);
    TokenizePlain(s);
  }

  // ----- Line classification -----

  lemma ClassifyDashes(line: string)
    requires line == "---"
    ensures Classify(line) == RuleLine
  {
    assert RunEnd(line, 0, IsHash) == 0;
    assert RunEnd(line, 0, IsWhitespace) == 0;
    assert RunEnd(line, 1, IsWhitespace) == 1;
    assert RunEnd(line, 0, IsDigit) == 0;
    assert RunEnd(line, 2, IsRuleChar) == 3;
    assert RunEnd(line, 0, IsRuleChar) == 3;
  }

  lemma ClassifyStars(line: string)
    requires line == "***"
    ensures Classify(line) == RuleLine
  {
    assert RunEnd(line, 0, IsHash) == 0;
    assert RunEnd(line, 0, IsWhitespace) == 0;
    assert RunEnd(line, 1, IsWhitespace) == 1;
    assert RunEnd(line, 0, IsDigit) == 0;
    assert RunEnd(line, 2, IsRuleChar) == 3;
    assert RunEnd(line, 0, IsRuleChar) == 3;
  }

  /** `- - -` is a rule in Markdown, but the bullet test comes first: an item `- -`. */
  lemma ClassifySpacedDashes(line: string)
    requires line == "- - -"
    ensures Classify(line) == BulletLine("- -")
  {
    assert RunEnd(line, 0, IsHash) == 0;
    assert RunEnd(line, 0, IsWhitespace) == 0;
    assert RunEnd(line, 1, IsWhitespace) == 2;
    assert line[2..] == "- -";
  }

  lemma ClassifyTitle(line: string)
    requires line == "# Title"
    ensures Classify(line) == HeadingLine(1, "Title")
  {
    assert RunEnd(line, 0, IsHash) == 1;
    assert RunEnd(line, 1, IsWhitespace) == 2;
    assert line[2..] == "Title";
  }

  /** A heading needs white space after the `#` run. */
  lemma ClassifyHashWord(line: string)
    requires line == "#x"
    ensures Classify(line) == TextLine
  {
    assert RunEnd(line, 0, IsHash) == 1;
    assert RunEnd(line, 1, IsWhitespace) == 1;
    assert RunEnd(line, 0, IsWhitespace) == 0;
    assert RunEnd(line, 0, IsDigit) == 0;
    assert RunEnd(line, 0, IsRuleChar) == 0;
  }

  /** The number of an ordered item is dropped. */
  lemma ClassifyNumbered(line: string)
    requires line == "12. item"
    ensures Classify(line) == NumberedLine("item")
  {
    assert RunEnd(line, 0, IsHash) == 0;
    assert RunEnd(line, 0, IsWhitespace) == 0;
    assert RunEnd(line, 2, IsDigit) == 2;
    assert RunEnd(line, 1, IsDigit) == 2;
    assert RunEnd(line, 0, IsDigit) == 2;
    assert RunEnd(line, 3, IsWhitespace) == 4;
    assert line[4..] == "item";
  }

  // ----- A whole text -----

  lemma ClassifyDashItem(line: string, c: char)
    requires line == ['-', ' ', c] && c != ' ' && IsLineChar(c) && !IsWhitespace(c)
    ensures Classify(line) == BulletLine([c])
  {
    assert RunEnd(line, 0, IsHash) == 0;
    assert RunEnd(line, 0, IsWhitespace) == 0;
    assert RunEnd(line, 2, IsWhitespace) == 2;
    assert RunEnd(line, 1, IsWhitespace) == 2;
    assert line[2..] == [c];
  }

  lemma ClassifyOneItem(line: string)
    requires line == "1. x"
    ensures Classify(line) == NumberedLine("x")
  {
    assert RunEnd(line, 0, IsHash) == 0;
    assert RunEnd(line, 0, IsWhitespace) == 0;
    assert RunEnd(line, 1, IsDigit) == 1;
    assert RunEnd(line, 0, IsDigit) == 1;
    assert RunEnd(line, 3, IsWhitespace) == 3;
    assert RunEnd(line, 2, IsWhitespace) == 3;
    assert line[3..] == "x";
  }

  lemma ExampleLines(text: string)
    requires text == "- a\n- b\n1. x"
    ensures SplitLines(text) == ["- a", "- b", "1. x"]
  {
    var ls := ["- a", "- b", "1. x"];
    assert JoinLines(ls[2..]) == "1. x";
    assert JoinLines(ls[1..]) == "- b\n1. x";
    assert JoinLines(ls) == text;
    SplitJoinLines(ls);
  }

  lemma ExampleBullets(ls: seq<string>)
    requires ls == ["- a", "- b"]
    ensures FeedAll(Start, ls) == ScanState(false, [], ["a", "b"], Some(Unordered), [])
  {
    ClassifyDashItem(ls[0], 'a');
    ClassifyDashItem(ls[1], 'b');
    var first := Start.(listType := Some(Unordered), listItems := ["a"]);
    BulletStep(Start, ls[0], "a");
    BulletStep(first, ls[1], "b");
    FeedAllPrefix(Start, ls, 0);
    FeedAllPrefix(Start, ls, 1);
    assert ls[..0] == [] && ls[..2] == ls;
  }

  /** A bullet line read with no list or a bullet list pending appends its item to that list. */
  lemma BulletStep(st: ScanState, line: string, t: string)
    requires Consistent(st) && !st.inCodeBlock && Classify(line) == BulletLine(t)
    requires st.listType.None? || st.listType == Some(Unordered)
    ensures Feed(st, line) == st.(listType := Some(Unordered), listItems := st.listItems + [t])
  {
    FeedItem(st, line, Unordered);
    assert ListBase(st, Unordered) == st;
  }

  lemma ExampleItems()
    ensures RenderItems(["a", "b"]) == [[Text("a")], [Text("b")]]
    ensures RenderItems(["x"]) == [[Text("x")]]
  {
    TokenizeNoMarkers("a");
    TokenizeNoMarkers("b");
    TokenizeNoMarkers("x");
  }

  lemma ExampleFeed(ls: seq<string>)
    requires ls == ["- a", "- b", "1. x"]
    ensures FeedAll(Start, ls) == ScanState(false, [], ["x"], Some(Ordered), [List(false, RenderItems(["a", "b"]))])
  {
    ExampleBullets(ls[..2]);
    ClassifyOneItem(ls[2]);
    var mid := ScanState(false, [], ["a", "b"], Some(Unordered), []);
    FeedItem(mid, ls[2], Ordered);
  }

  /** A change of list kind ends the pending list: `- a`, `- b`, `1. x` give two lists. */
  lemma ListKindChangeSplits(text: string)
    requires text == "- a\n- b\n1. x"
    ensures Parse(text) == [List(false, [[Text("a")], [Text("b")]]), List(true, [[Text("x")]])]
  {
    ExampleLines(text);
    ExampleFeed(["- a", "- b", "1. x"]);
    ExampleItems();
  }

  /** The lines of a fence closed at once, and of a fence around one empty line. */
  lemma FenceLines(empty: string, blank: string)
    requires empty == "```\n```" && blank == "```\n\n```"
    ensures SplitLines(empty) == ["```", "```"]
    ensures SplitLines(blank) == ["```", "", "```"]
  {
    var e := ["```", "```"];
    assert JoinLines(e[1..]) == "```";
    assert JoinLines(e) == empty;
    SplitJoinLines(e);
    var b := ["```", "", "```"];
    assert JoinLines(b[2..]) == "```";
    assert JoinLines(b[1..]) == "\n```";
    assert JoinLines(b) == blank;
    SplitJoinLines(b);
  }

  /**
    A fence closed at once gives a code block of no lines, and a fence around one empty line a
    block of one empty line: both render as the same empty `<code>` text.
  */
  lemma EmptyCodeBlocks(empty: string, blank: string)
    requires empty == "```\n```" && blank == "```\n\n```"
    ensures Parse(empty) == [CodeBlock([])]
    ensures Parse(blank) == [CodeBlock([""])]
  {
    FenceLines(empty, blank);
    assert !IsFence("");
    FencedBlock(Start, "```", [], "```");
    assert ["```"] + [] + ["```"] == ["```", "```"];
    FencedBlock(Start, "```", [""], "```");
    assert ["```"] + [""] + ["```"] == ["```", "", "```"];
  }
}
