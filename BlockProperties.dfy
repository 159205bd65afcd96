/**
  What `renderMarkdown` guarantees, stated over the pure fold of module `BlockScanner`:
  how its line patterns read as regular expressions, how code fences, lists and paragraphs
  come out, and how many blocks a text can give.
*/
module BlockProperties {
  import opened Wrappers
  import opened Strings
  import opened InlineTokenizer
  import opened BlockScanner

  // ----- The line patterns, against their regular expressions -----

  /** The longest run of `P` from `from` ends at `e` when everything before `e` satisfies `P` and `s[e]` does not. */
  lemma RunEndAt(s: string, from: nat, P: char -> bool, e: nat)
    requires from <= e <= |s|
    requires forall k :: from <= k < e ==> P(s[k])
    requires e < |s| ==> !P(s[e])
    ensures RunEnd(s, from, P) == e
  {
  }

  /** A white-space prefix of a `\s+(.+)$` match lies inside the run of white space. */
  lemma TailWithinRun(s: string, k: nat, j: nat)
    requires TailAt(s, k, j)
    ensures j <= RunEnd(s, k, IsWhitespace)
  {
    assert forall i :: k <= i < j ==> s[i] == s[k..j][i - k];
  }

  /** Any split that `\s+(.+)$` could use makes the pattern match. */
  lemma TailMatches(s: string, k: nat, j: nat)
    requires TailAt(s, k, j)
    ensures SpaceThenText(s, k).Some? && j <= RunEnd(s, k, IsWhitespace)
  {
    var e := RunEnd(s, k, IsWhitespace);
    TailWithinRun(s, k, j);
    if e < |s| {
      assert forall i :: 0 <= i < |s[e..]| ==> s[e..][i] == s[j..][i + e - j];
    } else {
      assert s[j..][|s| - 1 - j] == s[|s| - 1];
    }
  }

  /** The split the engine settles on: the end of the white-space run, or one short of the end of the line. */
  function TailSplit(s: string, k: nat): nat
    requires k <= |s|
  {
    var e := RunEnd(s, k, IsWhitespace);
    if e < |s| || e == 0 then e else |s| - 1
  }

  /** When `\s+(.+)$` matches, its capture is the text after `TailSplit`, and that split is one it may use. */
  lemma MatchedTail(s: string, k: nat)
    requires k <= |s| && SpaceThenText(s, k).Some?
    ensures TailAt(s, k, TailSplit(s, k)) && SpaceThenText(s, k).value == s[TailSplit(s, k)..]
  {
    var j := TailSplit(s, k);
    assert forall i :: 0 <= i < |s[k..j]| ==> s[k..j][i] == s[k + i];
  }

  /**
    `\s+(.+)$` from `k` matches exactly when the line splits into white space and then text
    without line terminators, and the capture is the text after the longest such white space.
  */
  lemma SpaceThenTextSpec(s: string, k: nat)
    requires k <= |s|
    ensures SpaceThenText(s, k).Some? <==> exists j: nat :: TailAt(s, k, j)
    ensures SpaceThenText(s, k).Some? ==>
      exists j: nat :: TailAt(s, k, j) && SpaceThenText(s, k).value == s[j..]
                  && forall j': nat :: TailAt(s, k, j') ==> j' <= j
  {
    forall j: nat | TailAt(s, k, j) ensures SpaceThenText(s, k).Some? && j <= RunEnd(s, k, IsWhitespace) && j < |s| {
      TailMatches(s, k, j);
    }
    if SpaceThenText(s, k).Some? {
      MatchedTail(s, k);
      var j := TailSplit(s, k);
      forall j': nat | TailAt(s, k, j') ensures j' <= j {
        TailMatches(s, k, j');
      }
    }
  }

  /**
    `^(#{1,6})\s+(.+)$`: a line is a heading exactly when it is one to six `#`, then white
    space, then text; the level is the whole run of leading `#`, so seven or more never match.
  */
  lemma MatchHeaderSpec(line: string)
    ensures MatchHeader(line).Some? <==>
      exists h: nat, j: nat :: 1 <= h <= 6 && h <= |line| && (forall k :: 0 <= k < h ==> line[k] == '#') && TailAt(line, h, j)
    ensures MatchHeader(line).Some? ==>
      var h := MatchHeader(line).value.0;
      1 <= h <= 6 && h < |line| && (forall k :: 0 <= k < h ==> line[k] == '#') && line[h] != '#'
      && SpaceThenText(line, h) == Some(MatchHeader(line).value.1)
  {
    forall h: nat, j: nat | 1 <= h <= 6 && h <= |line| && (forall k :: 0 <= k < h ==> line[k] == '#') && TailAt(line, h, j)
      ensures MatchHeader(line).Some?
    {
      assert line[h..j][0] == line[h];
      RunEndAt(line, 0, IsHash, h);
      SpaceThenTextSpec(line, h);
    }
    if MatchHeader(line).Some? {
      var h := RunEnd(line, 0, IsHash);
      SpaceThenTextSpec(line, h);
    }
  }

  /** A line of seven or more `#` is never a heading, whatever follows. */
  lemma SevenHashesNotHeading(line: string)
    requires |line| >= 7 && forall k :: 0 <= k < 7 ==> line[k] == '#'
    ensures MatchHeader(line).None?
  {
    var h := RunEnd(line, 0, IsHash);
    if h < 7 {
      assert IsHash(line[h]);
    }
  }

  /** `[\s]*[-*]\s+(.+)$` read at a marker `b` and a split `j`: white space, the marker, white space, then text. */
  ghost predicate BulletAt(line: string, b: nat, j: nat) {
    b < |line| && AllWhitespace(line[..b]) && (line[b] == '-' || line[b] == '*') && TailAt(line, b + 1, j)
  }

  /** `[\s]*\d+\.\s+(.+)$` read with digits in `[b, d)`, the dot at `d` and a split `j`. */
  ghost predicate NumberAt(line: string, b: nat, d: nat, j: nat) {
    b < d < |line| && AllWhitespace(line[..b]) && (forall k :: b <= k < d ==> IsDigit(line[k]))
    && line[d] == '.' && TailAt(line, d + 1, j)
  }

  lemma WhitespacePrefixRun(line: string, b: nat)
    requires b < |line| && AllWhitespace(line[..b]) && !IsWhitespace(line[b])
    ensures RunEnd(line, 0, IsWhitespace) == b
  {
    assert forall k :: 0 <= k < b ==> line[..b][k] == line[k];
    RunEndAt(line, 0, IsWhitespace, b);
  }

  /** The bullet pattern read from the end of the leading white-space run. */
  lemma BulletAtRuns(line: string, b: nat)
    requires RunEnd(line, 0, IsWhitespace) == b && b < |line| && (line[b] == '-' || line[b] == '*')
    ensures MatchBullet(line) == SpaceThenText(line, b + 1)
  {
  }

  lemma BulletAtMatches(line: string, b: nat, j: nat)
    requires BulletAt(line, b, j)
    ensures MatchBullet(line) == SpaceThenText(line, b + 1) && MatchBullet(line).Some?
  {
    WhitespacePrefixRun(line, b);
    BulletAtRuns(line, b);
    TailMatches(line, b + 1, j);
  }

  lemma BulletMatchIsBulletAt(line: string)
    requires MatchBullet(line).Some?
    ensures exists b: nat, j: nat :: BulletAt(line, b, j) && MatchBullet(line) == SpaceThenText(line, b + 1)
  {
    var w := RunEnd(line, 0, IsWhitespace);
    LeadingWhitespace(line);
    BulletAtRuns(line, w);
    MatchedTail(line, w + 1);
    assert BulletAt(line, w, TailSplit(line, w + 1));
  }

  /** The numbered pattern read from the ends of its runs. */
  lemma NumberedAtRuns(line: string, b: nat, d: nat)
    requires RunEnd(line, 0, IsWhitespace) == b && b <= |line| && RunEnd(line, b, IsDigit) == d
    requires b < d < |line| && line[d] == '.'
    ensures MatchNumbered(line) == SpaceThenText(line, d + 1)
  {
  }

  lemma NumberAtMatches(line: string, b: nat, d: nat, j: nat)
    requires NumberAt(line, b, d, j)
    ensures MatchNumbered(line) == SpaceThenText(line, d + 1) && MatchNumbered(line).Some?
  {
    WhitespacePrefixRun(line, b);
    RunEndAt(line, b, IsDigit, d);
    NumberedAtRuns(line, b, d);
    TailMatches(line, d + 1, j);
  }

  /**
    `^[\s]*[-*]\s+(.+)$`: a line is an unordered bullet exactly when it is white space, `-` or
    `*`, white space, then text; the item is what `\s+(.+)$` captures after the marker.
  */
  lemma MatchBulletSpec(line: string)
    ensures MatchBullet(line).Some? <==> exists b: nat, j: nat :: BulletAt(line, b, j)
    ensures MatchBullet(line).Some? ==>
      exists b: nat, j: nat :: BulletAt(line, b, j) && MatchBullet(line) == SpaceThenText(line, b + 1)
  {
    forall b: nat, j: nat | BulletAt(line, b, j) ensures MatchBullet(line).Some? {
      BulletAtMatches(line, b, j);
    }
    if MatchBullet(line).Some? {
      BulletMatchIsBulletAt(line);
    }
  }

  /** The leading white-space run, as a slice. */
  lemma LeadingWhitespace(line: string)
    ensures AllWhitespace(line[..RunEnd(line, 0, IsWhitespace)])
  {
    var w := RunEnd(line, 0, IsWhitespace);
    assert forall k :: 0 <= k < w ==> line[..w][k] == line[k];
  }

  lemma DigitRun(line: string, w: nat)
    requires w <= |line|
    ensures forall k :: w <= k < RunEnd(line, w, IsDigit) ==> IsDigit(line[k])
  {
  }

  /** A numbered match has its dot right after the run of digits that follows the white space. */
  lemma NumberedShape(line: string)
    requires MatchNumbered(line).Some?
    ensures var w := RunEnd(line, 0, IsWhitespace);
            var d := RunEnd(line, w, IsDigit);
            w < d < |line| && line[d] == '.'
  {
  }

  /** The digits and dot found by the runs, with a split of `\s+(.+)$`, read as `NumberAt`. */
  lemma NumberAtFromRuns(line: string, b: nat, d: nat, j: nat)
    requires b <= |line| && RunEnd(line, 0, IsWhitespace) == b && RunEnd(line, b, IsDigit) == d
    requires b < d < |line| && line[d] == '.' && TailAt(line, d + 1, j)
    ensures NumberAt(line, b, d, j)
  {
    LeadingWhitespace(line);
    DigitRun(line, b);
  }

  /** The split `\s+(.+)$` settles on after the dot, read as `NumberAt`. */
  lemma NumberedTail(line: string, b: nat, d: nat) returns (j: nat)
    requires b <= |line| && RunEnd(line, 0, IsWhitespace) == b && RunEnd(line, b, IsDigit) == d
    requires b < d < |line| && line[d] == '.' && SpaceThenText(line, d + 1).Some?
    ensures NumberAt(line, b, d, j)
  {
    MatchedTail(line, d + 1);
    j := TailSplit(line, d + 1);
    NumberAtFromRuns(line, b, d, j);
  }

  lemma NumberedMatchIsNumberAt(line: string) returns (b: nat, d: nat, j: nat)
    requires MatchNumbered(line).Some?
    ensures NumberAt(line, b, d, j) && MatchNumbered(line) == SpaceThenText(line, d + 1)
  {
    NumberedShape(line);
    b := RunEnd(line, 0, IsWhitespace);
    d := RunEnd(line, b, IsDigit);
    NumberedAtRuns(line, b, d);
    j := NumberedTail(line, b, d);
  }

  /**
    `^[\s]*\d+\.\s+(.+)$`: a line is an ordered bullet exactly when it is white space, digits,
    `.`, white space, then text; the item is what follows, and the number itself is dropped.
  */
  lemma MatchNumberedSpec(line: string)
    ensures MatchNumbered(line).Some? <==> exists b: nat, d: nat, j: nat :: NumberAt(line, b, d, j)
    ensures MatchNumbered(line).Some? ==>
      exists b: nat, d: nat, j: nat :: NumberAt(line, b, d, j) && MatchNumbered(line) == SpaceThenText(line, d + 1)
  {
    forall b: nat, d: nat, j: nat | NumberAt(line, b, d, j) ensures MatchNumbered(line).Some? {
      NumberAtMatches(line, b, d, j);
    }
    if MatchNumbered(line).Some? {
      var b, d, j := NumberedMatchIsNumberAt(line);
    }
  }

  /** `/^[-*_]{3,}$/` on a trimmed line. */
  predicate RulePattern(t: string) {
    |t| >= 3 && forall k :: 0 <= k < |t| ==> IsRuleChar(t[k])
  }

  /** White space, three or more rule characters in `[a, b)`, white space: a rule line. */
  lemma RuleFromCut(line: string, a: nat, b: nat)
    requires a + 3 <= b <= |line|
    requires forall k :: 0 <= k < a ==> IsWhitespace(line[k])
    requires forall k :: a <= k < b ==> IsRuleChar(line[k])
    requires forall k :: b <= k < |line| ==> IsWhitespace(line[k])
    ensures IsRule(line)
  {
    RunEndAt(line, 0, IsWhitespace, a);
    RunEndAt(line, a, IsRuleChar, b);
    assert forall k :: 0 <= k < |line| - b ==> line[b..][k] == line[b + k];
  }

  lemma TrimmedRuleIsRule(line: string)
    requires RulePattern(Trim(line))
    ensures IsRule(line)
  {
    TrimSlice(line);
    var t := Trim(line);
    var a := TrimStartIndex(line);
    var b := a + |t|;
    assert forall k :: a <= k < b ==> line[k] == t[k - a];
    RuleFromCut(line, a, b);
  }

  /** Index form of the rule test: the dashes are `[w, r)` and only white space follows. */
  lemma RuleIndices(line: string)
    requires IsRule(line)
    ensures var w := RunEnd(line, 0, IsWhitespace); var r := RunEnd(line, w, IsRuleChar);
            w + 3 <= r && forall k :: r <= k < |line| ==> IsWhitespace(line[k])
  {
    var w := RunEnd(line, 0, IsWhitespace);
    var r := RunEnd(line, w, IsRuleChar);
    assert forall k :: r <= k < |line| ==> line[r..][k - r] == line[k];
  }

  /**
    Two ways of cutting white space off a line agree: `[a, b)` with white space outside and
    none at its ends, and `[w, r)` with white space before, rule characters inside and white
    space after.
  */
  lemma SameCut(line: string, a: nat, b: nat, w: nat, r: nat)
    requires a <= b <= |line| && w + 3 <= r <= |line|
    requires forall k :: 0 <= k < a ==> IsWhitespace(line[k])
    requires forall k :: b <= k < |line| ==> IsWhitespace(line[k])
    requires a < b ==> !IsWhitespace(line[a]) && !IsWhitespace(line[b - 1])
    requires forall k :: 0 <= k < w ==> IsWhitespace(line[k])
    requires forall k :: w <= k < r ==> IsRuleChar(line[k])
    requires forall k :: r <= k < |line| ==> IsWhitespace(line[k])
    ensures a == w && b == r
  {
    assert !IsWhitespace(line[w]);
    assert a < b;
    assert a == w;
    assert !IsWhitespace(line[r - 1]);
  }

  /** What `trim` keeps of a line cut as white space, rule characters `[w, r)`, white space. */
  lemma TrimOfRuleCut(line: string, a: nat, t: string, w: nat, r: nat)
    requires TrimmedAt(line, a, t) && w + 3 <= r <= |line|
    requires forall k :: 0 <= k < w ==> IsWhitespace(line[k])
    requires forall k :: w <= k < r ==> IsRuleChar(line[k])
    requires forall k :: r <= k < |line| ==> IsWhitespace(line[k])
    ensures RulePattern(t)
  {
    SameCut(line, a, a + |t|, w, r);
    assert forall k :: 0 <= k < |t| ==> t[k] == line[a + k];
  }

  lemma RuleIsTrimmedRule(line: string)
    requires IsRule(line)
    ensures RulePattern(Trim(line))
  {
    TrimSlice(line);
    RuleIndices(line);
    var w := RunEnd(line, 0, IsWhitespace);
    TrimOfRuleCut(line, TrimStartIndex(line), Trim(line), w, RunEnd(line, w, IsRuleChar));
  }

  /**
    The rule test reads the trimmed line against `^[-*_]{3,}$`: it holds exactly when what
    `trim` keeps is three or more of `-`, `*`, `_`, in any mix.
  */
  lemma RuleIffTrimmedRule(line: string)
    ensures IsRule(line) <==> RulePattern(Trim(line))
  {
    if IsRule(line) {
      RuleIsTrimmedRule(line);
    }
    if RulePattern(Trim(line)) {
      TrimmedRuleIsRule(line);
    }
  }

  // ----- The loop over the lines -----

  /** Feeding two runs of lines one after the other is feeding their concatenation. */
  lemma {:induction false} FeedAllAppend(st: ScanState, a: seq<string>, b: seq<string>)
    ensures FeedAll(st, a + b) == FeedAll(FeedAll(st, a), b)
    decreases |b|
  {
    if b == [] {
      assert a + b == a;
    } else {
      var b' := b[..|b| - 1];
      assert (a + b)[..|a + b| - 1] == a + b';
      FeedAllAppend(st, a, b');
    }
  }

  /** `Consistent` holds after every line. */
  lemma {:induction false} FeedAllConsistent(st: ScanState, lines: seq<string>)
    requires Consistent(st)
    ensures Consistent(FeedAll(st, lines))
    decreases |lines|
  {
    if lines != [] {
      FeedAllConsistent(st, lines[..|lines| - 1]);
    }
  }

  /** Blocks emitted, plus one for a pending list and one for an open code block. */
  function Pending(st: ScanState): nat {
    |st.elements| + (if st.listItems != [] then 1 else 0) + (if st.inCodeBlock then 1 else 0)
  }

  /** A line adds at most one block, counting the pending ones. */
  lemma StepPending(st: ScanState, line: string, kind: LineKind)
    requires Consistent(st)
    ensures Pending(Step(st, line, kind)) <= Pending(st) + 1
  {
  }

  lemma FeedPending(st: ScanState, line: string)
    requires Consistent(st)
    ensures Pending(Feed(st, line)) <= Pending(st) + 1
  {
    StepPending(st, line, Classify(line));
  }

  lemma {:induction false} FeedAllPending(st: ScanState, lines: seq<string>)
    requires Consistent(st)
    ensures Pending(FeedAll(st, lines)) <= Pending(st) + |lines|
    decreases |lines|
  {
    if lines != [] {
      var init := lines[..|lines| - 1];
      FeedAllPending(st, init);
      FeedAllConsistent(st, init);
      FeedPending(FeedAll(st, init), lines[|lines| - 1]);
    }
  }

  /** `renderMarkdown` never returns more blocks than the text has lines. */
  lemma BlocksAtMostLines(text: string)
    ensures |Parse(text)| <= |SplitLines(text)|
  {
    var st := FeedAll(Start, SplitLines(text));
    FeedAllPending(Start, SplitLines(text));
    FeedAllConsistent(Start, SplitLines(text));
    assert |Finish(st)| <= Pending(st);
  }

  lemma ClassifyEmpty()
    ensures Classify("") == BlankLine
  {
    assert RunEnd("", 0, IsHash) == 0;
    assert RunEnd("", 0, IsWhitespace) == 0;
  }

  /** The empty text renders to no blocks. */
  lemma ParseEmpty()
    ensures Parse("") == []
  {
    assert SplitLines("") == [""];
    ClassifyEmpty();
    assert FeedAll(Start, [""]) == Step(Start, "", BlankLine);
  }

  /** A white-space-only line is none of fence, heading, item or rule: it is classified blank. */
  lemma ClassifyBlank(line: string)
    requires IsBlank(line)
    ensures Classify(line) == BlankLine
  {
    RunEndAt(line, 0, IsWhitespace, |line|);
    RunEndAt(line, 0, IsHash, 0);
    RunEndAt(line, |line|, IsDigit, |line|);
    RunEndAt(line, |line|, IsRuleChar, |line|);
  }

  /** Outside a code block a blank line only ends the pending list; it emits nothing of its own. */
  lemma FeedBlank(st: ScanState, line: string)
    requires !st.inCodeBlock && IsBlank(line)
    ensures Feed(st, line) == Flush(st)
  {
    ClassifyBlank(line);
  }

  // ----- Code fences -----

  /** The fence test comes first, so a line is taken for a fence exactly when it starts with three backticks. */
  lemma ClassifyFence(line: string)
    ensures Classify(line).FenceLine? <==> IsFence(line)
  {
    if !IsFence(line) {
      ClassifyAfterFence(line);
    }
  }

  lemma FeedInCode(st: ScanState, line: string)
    requires st.inCodeBlock && !IsFence(line)
    ensures Feed(st, line) == st.(codeBlockContent := st.codeBlockContent + [line])
  {
    ClassifyFence(line);
  }

  lemma FeedFence(st: ScanState, line: string)
    requires Consistent(st) && IsFence(line)
    ensures !st.inCodeBlock ==> Feed(st, line) == Flush(st).(inCodeBlock := true)
    ensures st.inCodeBlock ==>
      Feed(st, line) == st.(elements := st.elements + [CodeBlock(st.codeBlockContent)], codeBlockContent := [], inCodeBlock := false)
  {
    ClassifyFence(line);
  }

  lemma AppendSnoc<T>(xs: seq<T>, ys: seq<T>)
    requires ys != []
    ensures xs + ys[..|ys| - 1] + [ys[|ys| - 1]] == xs + ys
  {
    assert ys[..|ys| - 1] + [ys[|ys| - 1]] == ys;
  }

  /** Inside a code block, every line that is not a fence is kept verbatim, however it looks. */
  lemma {:induction false} CodeLinesVerbatim(st: ScanState, body: seq<string>)
    requires st.inCodeBlock
    requires forall k :: 0 <= k < |body| ==> !IsFence(body[k])
    ensures FeedAll(st, body) == st.(codeBlockContent := st.codeBlockContent + body)
    decreases |body|
  {
    if body == [] {
      assert st.codeBlockContent + body == st.codeBlockContent;
    } else {
      var init, last := body[..|body| - 1], body[|body| - 1];
      CodeLinesVerbatim(st, init);
      FeedInCode(FeedAll(st, init), last);
      AppendSnoc(st.codeBlockContent, body);
    }
  }

  /** Opening a fence, then fence-free lines: the lines are buffered, after the pending list is emitted. */
  lemma OpenFenceThenLines(st: ScanState, open: string, body: seq<string>)
    requires Consistent(st) && !st.inCodeBlock
    requires IsFence(open)
    requires forall k :: 0 <= k < |body| ==> !IsFence(body[k])
    ensures FeedAll(st, [open] + body) == ScanState(true, body, [], None, Flush(st).elements)
  {
    var inside := Flush(st).(inCodeBlock := true);
    FeedFence(st, open);
    assert FeedAll(st, [open]) == inside;
    FeedAllAppend(st, [open], body);
    CodeLinesVerbatim(inside, body);
    assert [] + body == body;
  }

  /**
    An opening fence, fence-free lines, and a closing fence give one code block holding exactly
    those lines, after the list that was pending; the language tag on either fence is ignored.
  */
  lemma FencedBlock(st: ScanState, open: string, body: seq<string>, close: string)
    requires Consistent(st) && !st.inCodeBlock
    requires IsFence(open) && IsFence(close)
    requires forall k :: 0 <= k < |body| ==> !IsFence(body[k])
    ensures FeedAll(st, [open] + body + [close]) == ScanState(false, [], [], None, Flush(st).elements + [CodeBlock(body)])
  {
    OpenFenceThenLines(st, open, body);
    var inside := FeedAll(st, [open] + body);
    FeedFence(inside, close);
    assert ([open] + body + [close])[..|[open] + body + [close]| - 1] == [open] + body;
  }

  /** A fence left open at the end still gives its lines as a code block, unless it holds none. */
  lemma UnclosedFence(st: ScanState, open: string, body: seq<string>)
    requires Consistent(st) && !st.inCodeBlock
    requires IsFence(open)
    requires forall k :: 0 <= k < |body| ==> !IsFence(body[k])
    ensures Finish(FeedAll(st, [open] + body)) == Flush(st).elements + (if body == [] then [] else [CodeBlock(body)])
  {
    OpenFenceThenLines(st, open, body);
  }

  // ----- Lists -----

  /** The line kinds that extend a list of kind `kind`. */
  predicate IsItemOf(kind: ListKind, k: LineKind) {
    if kind == Unordered then k.BulletLine? else k.NumberedLine?
  }

  /** The item text of a list line. */
  function ItemText(k: LineKind): string {
    if k.BulletLine? || k.NumberedLine? then k.item else ""
  }

  /** The item texts of a run of list lines. */
  function ItemTexts(lines: seq<string>): seq<string> {
    seq(|lines|, i requires 0 <= i < |lines| => ItemText(Classify(lines[i])))
  }

  lemma ItemTextsSnoc(lines: seq<string>)
    requires lines != []
    ensures ItemTexts(lines) == ItemTexts(lines[..|lines| - 1]) + [ItemText(Classify(lines[|lines| - 1]))]
  {
  }

  /** The state a list item of kind `kind` is added to: `st` when that list is pending, else `st` flushed. */
  function ListBase(st: ScanState, kind: ListKind): ScanState {
    if st.listType == Some(kind) then st else Flush(st)
  }

  lemma StepItem(st: ScanState, line: string, kind: ListKind, k: LineKind)
    requires Consistent(st) && !st.inCodeBlock && IsItemOf(kind, k)
    ensures Step(st, line, k) == ListBase(st, kind).(listType := Some(kind), listItems := ListBase(st, kind).listItems + [ItemText(k)])
  {
  }

  lemma FeedItem(st: ScanState, line: string, kind: ListKind)
    requires Consistent(st) && !st.inCodeBlock && IsItemOf(kind, Classify(line))
    ensures Feed(st, line) == ListBase(st, kind).(listType := Some(kind), listItems := ListBase(st, kind).listItems + [ItemText(Classify(line))])
  {
    StepItem(st, line, kind, Classify(line));
  }

  /**
    A run of list lines of one kind extends a single pending list: the items are appended in
    order, and the list that was pending is emitted first only when it is of the other kind.
  */
  lemma {:induction false} ListRun(st: ScanState, kind: ListKind, lines: seq<string>)
    requires Consistent(st) && !st.inCodeBlock && lines != []
    requires forall i :: 0 <= i < |lines| ==> IsItemOf(kind, Classify(lines[i]))
    ensures FeedAll(st, lines) ==
      ListBase(st, kind).(listType := Some(kind), listItems := ListBase(st, kind).listItems + ItemTexts(lines))
    decreases |lines|
  {
    if |lines| == 1 {
      RunFirst(st, kind, lines);
    } else {
      var init := lines[..|lines| - 1];
      assert forall i :: 0 <= i < |init| ==> init[i] == lines[i];
      ListRun(st, kind, init);
      RunNext(st, kind, lines, FeedAll(st, init));
    }
  }


  /** The first line of a run of items: the list of its kind is started, or kept if pending. */
  lemma RunFirst(st: ScanState, kind: ListKind, lines: seq<string>)
    requires Consistent(st) && !st.inCodeBlock && |lines| == 1
    requires IsItemOf(kind, Classify(lines[0]))
    ensures FeedAll(st, lines) ==
      ListBase(st, kind).(listType := Some(kind), listItems := ListBase(st, kind).listItems + ItemTexts(lines))
  {
    FeedItem(st, lines[0], kind);
    assert lines[..0] == [];
    assert ItemTexts(lines) == [ItemText(Classify(lines[0]))];
  }

  /** A later line of a run of items: its item follows those of the lines before it. */
  lemma RunNext(st: ScanState, kind: ListKind, lines: seq<string>, prev: ScanState)
    requires Consistent(st) && !st.inCodeBlock && |lines| > 1
    requires IsItemOf(kind, Classify(lines[|lines| - 1]))
    requires prev == FeedAll(st, lines[..|lines| - 1])
    requires prev == ListBase(st, kind).(listType := Some(kind), listItems := ListBase(st, kind).listItems + ItemTexts(lines[..|lines| - 1]))
    ensures FeedAll(st, lines) ==
      ListBase(st, kind).(listType := Some(kind), listItems := ListBase(st, kind).listItems + ItemTexts(lines))
  {
    var base, items, last := ListBase(st, kind), ItemTexts(lines[..|lines| - 1]), lines[|lines| - 1];
    ItemTextsSnoc(lines);
    ExtendRun(base, kind, items, last);
    SameItems(FeedAll(st, lines), base, kind, items, ItemText(Classify(last)), ItemTexts(lines));
  }

  lemma SameItems(r: ScanState, base: ScanState, kind: ListKind, items: seq<string>, t: string, texts: seq<string>)
    requires r == base.(listType := Some(kind), listItems := base.listItems + items + [t])
    requires texts == items + [t]
    ensures r == base.(listType := Some(kind), listItems := base.listItems + texts)
  {
    assert base.listItems + items + [t] == base.listItems + texts;
  }

  /** One more item of the pending kind is appended after the items already pending. */
  lemma ExtendRun(base: ScanState, kind: ListKind, items: seq<string>, line: string)
    requires !base.inCodeBlock && base.codeBlockContent == [] && items != []
    requires IsItemOf(kind, Classify(line))
    ensures var mid := base.(listType := Some(kind), listItems := base.listItems + items);
            Feed(mid, line) == base.(listType := Some(kind), listItems := base.listItems + items + [ItemText(Classify(line))])
  {
    var mid := base.(listType := Some(kind), listItems := base.listItems + items);
    assert Consistent(mid);
    FeedItem(mid, line, kind);
    assert ListBase(mid, kind) == mid;
  }

  lemma FinishList(st: ScanState, kind: ListKind, items: seq<string>)
    requires !st.inCodeBlock && items != []
    ensures Finish(st.(listType := Some(kind), listItems := items)) == st.elements + [List(kind == Ordered, RenderItems(items))]
  {
  }

  /** Consecutive items of one kind, with no list pending before them, end up as one list block. */
  lemma ListGrouped(st: ScanState, kind: ListKind, lines: seq<string>)
    requires Consistent(st) && !st.inCodeBlock && st.listItems == [] && lines != []
    requires forall i :: 0 <= i < |lines| ==> IsItemOf(kind, Classify(lines[i]))
    ensures Finish(FeedAll(st, lines)) == st.elements + [List(kind == Ordered, RenderItems(ItemTexts(lines)))]
  {
    ListRun(st, kind, lines);
    assert ListBase(st, kind) == st;
    FinishRun(st, kind, FeedAll(st, lines), ItemTexts(lines));
  }

  /** A run of items added to a state with no list pending is finished as one list of them. */
  lemma FinishRun(st: ScanState, kind: ListKind, r: ScanState, items: seq<string>)
    requires !st.inCodeBlock && st.listItems == [] && items != []
    requires r == st.(listType := Some(kind), listItems := st.listItems + items)
    ensures Finish(r) == st.elements + [List(kind == Ordered, RenderItems(items))]
  {
    assert st.listItems + items == items;
    FinishList(st, kind, items);
  }

  lemma StepEndsList(st: ScanState, line: string, k: LineKind)
    requires Consistent(st) && !st.inCodeBlock && st.listType.Some? && !IsItemOf(st.listType.value, k)
    ensures var emitted := st.elements + [List(st.listType.value == Ordered, RenderItems(st.listItems))];
            var r := Step(st, line, k);
            emitted <= r.elements
            && r.listItems == (if k.BulletLine? || k.NumberedLine? then [k.item] else [])
  {
  }

  /**
    Outside a code block, any line that is not an item of the pending list's kind emits that
    list before whatever the line itself adds, and leaves pending only the line's own item if it
    starts a list of the other kind.
  */
  lemma ListEnds(st: ScanState, line: string)
    requires Consistent(st) && !st.inCodeBlock && st.listType.Some?
    requires !IsItemOf(st.listType.value, Classify(line))
    ensures var emitted := st.elements + [List(st.listType.value == Ordered, RenderItems(st.listItems))];
            var k := Classify(line);
            var r := Feed(st, line);
            emitted <= r.elements
            && r.listItems == (if k.BulletLine? || k.NumberedLine? then [k.item] else [])
  {
    StepEndsList(st, line, Classify(line));
  }

  // ----- Paragraphs -----

  lemma StepText(st: ScanState, line: string)
    requires !st.inCodeBlock
    ensures Step(st, line, TextLine) == Flush(st).(elements := Flush(st).elements + [Paragraph(Tokenize(line))])
  {
  }

  /** Two text lines in a row give two paragraphs; lines are never joined into one paragraph. */
  lemma ParagraphsNotMerged(st: ScanState, l1: string, l2: string)
    requires Consistent(st) && !st.inCodeBlock
    requires Classify(l1) == TextLine && Classify(l2) == TextLine
    ensures FeedAll(st, [l1, l2]) ==
      Flush(st).(elements := Flush(st).elements + [Paragraph(Tokenize(l1)), Paragraph(Tokenize(l2))])
  {
    StepText(st, l1);
    var mid := Flush(st).(elements := Flush(st).elements + [Paragraph(Tokenize(l1))]);
    assert FeedAll(st, [l1]) == mid;
    assert [l1, l2][..1] == [l1];
    StepText(mid, l2);
    assert Flush(mid) == mid;
  }

  /** Every paragraph among `blocks` renders, markers and all, to one of `lines`. */
  ghost predicate ParagraphsFrom(blocks: seq<Block>, lines: seq<string>) {
    forall i :: 0 <= i < |blocks| && blocks[i].Paragraph? ==> Concat(blocks[i].content) in lines
  }

  lemma ParagraphsFromAppend(blocks: seq<Block>, b: Block, lines: seq<string>)
    requires ParagraphsFrom(blocks, lines)
    requires b.Paragraph? ==> Concat(b.content) in lines
    ensures ParagraphsFrom(blocks + [b], lines)
  {
    assert forall i :: 0 <= i < |blocks| ==> (blocks + [b])[i] == blocks[i];
  }

  lemma FlushParagraphs(st: ScanState, lines: seq<string>)
    requires ParagraphsFrom(st.elements, lines)
    ensures ParagraphsFrom(Flush(st).elements, lines)
  {
    if |st.listItems| > 0 && st.listType.Some? {
      ParagraphsFromAppend(st.elements, List(st.listType.value == Ordered, RenderItems(st.listItems)), lines);
    }
  }

  lemma StepParagraphs(st: ScanState, line: string, k: LineKind, lines: seq<string>)
    requires ParagraphsFrom(st.elements, lines) && line in lines
    ensures ParagraphsFrom(Step(st, line, k).elements, lines)
  {
    FlushParagraphs(st, lines);
    var f := Flush(st);
    if k.FenceLine? {
      ParagraphsFromAppend(f.elements, CodeBlock(f.codeBlockContent), lines);
    } else if !st.inCodeBlock {
      match k
      case HeadingLine(h, t) => ParagraphsFromAppend(f.elements, Heading(h, Tokenize(t)), lines);
      case RuleLine => ParagraphsFromAppend(f.elements, Rule, lines);
      case TextLine =>
        TokenizeRoundTrip(line);
        ParagraphsFromAppend(f.elements, Paragraph(Tokenize(line)), lines);
      case _ =>
    }
  }

  lemma {:induction false} FeedAllParagraphs(st: ScanState, fed: seq<string>, lines: seq<string>)
    requires ParagraphsFrom(st.elements, lines)
    requires forall i :: 0 <= i < |fed| ==> fed[i] in lines
    ensures ParagraphsFrom(FeedAll(st, fed).elements, lines)
    decreases |fed|
  {
    if fed != [] {
      var init := fed[..|fed| - 1];
      FeedAllParagraphs(st, init, lines);
      StepParagraphs(FeedAll(st, init), fed[|fed| - 1], Classify(fed[|fed| - 1]), lines);
    }
  }

  /**
    Each paragraph `renderMarkdown` returns is one line of the text, split into inline pieces
    that concatenate back to that line: paragraphs neither merge lines nor lose characters.
  */
  lemma ParagraphsAreLines(text: string)
    ensures forall i :: 0 <= i < |Parse(text)| && Parse(text)[i].Paragraph? ==>
      Concat(Parse(text)[i].content) in SplitLines(text)
  {
    var lines := SplitLines(text);
    FeedAllParagraphs(Start, lines, lines);
    var st := FeedAll(Start, lines);
    assert ParagraphsFrom(Flush(st).elements, lines);
    assert ParagraphsFrom(Finish(st), lines);
  }
}
