/**
  The inline tokenizer of the Markdown renderer (`renderInline`): it cuts one line of text
  into plain text runs, bold spans, italic spans and code spans.

  Each pass of its loop tries three regular expressions against the text that remains,
  in a fixed order, and splits the remainder into a prefix, a delimited span and a rest:
    bold    `^(.*?)(\*\*|__)(.+?)\2(.*)$`  (s flag)
    italic  `^(.*?)(\*|_)(.+?)\2(.*)$`     (s flag), rejected when the prefix ends in `*` or `_`
    code    `^(.*?)`([^`]+)`(.*)$`          (s flag)
  A backtracking engine reports, for such a pattern, the match with the leftmost opening
  delimiter and, at that position, the shortest content (the lazy `.+?`). The searches below
  compute exactly that match, and their contracts state it in terms of the predicates
  `BoldAt`, `ItalicAt` and `CodeAt`, which say where a match is possible at all.
*/
module InlineTokenizer {
  import opened Wrappers

  /** An inline node. Bold and Italic keep the delimiter character that opened and closed them. */
  datatype Inline =
    | Text(text: string)
    | Bold(delim: char, content: string)
    | Italic(delim: char, content: string)
    | Code(content: string)

  /** A match of a span pattern: where its opening delimiter starts and how long its content is. */
  datatype Span = Span(start: nat, len: nat)

  /** One pass of the loop: the prefix, the span node, and the rest that is scanned next. */
  datatype Split = Split(before: string, node: Inline, after: string)

  predicate IsEmphasisChar(c: char) {
    c == '*' || c == '_'
  }

  /** `(\*\*|__)(.+?)\2` can match with its opening delimiter at `p` and `n` characters of content. */
  predicate BoldAt(s: string, p: nat, n: nat) {
    n >= 1 && p + n + 4 <= |s| && IsEmphasisChar(s[p]) && s[p + 1] == s[p]
    && s[p + n + 2] == s[p] && s[p + n + 3] == s[p]
  }

  /** `(\*|_)(.+?)\2` can match with its opening delimiter at `p` and `n` characters of content. */
  predicate ItalicAt(s: string, p: nat, n: nat) {
    n >= 1 && p + n + 2 <= |s| && IsEmphasisChar(s[p]) && s[p + n + 1] == s[p]
  }

  /** `` `([^`]+)` `` can match with its opening backtick at `p` and `n` characters of content. */
  predicate CodeAt(s: string, p: nat, n: nat) {
    n >= 1 && p + n + 2 <= |s| && s[p] == '`' && s[p + n + 1] == '`'
    && forall k :: p < k <= p + n ==> s[k] != '`'
  }

  /** Match `m` is reported before a match at `p` with `n` characters: leftmost first, then shortest. */
  predicate Precedes(m: Span, p: nat, n: nat) {
    m.start < p || (m.start == p && m.len <= n)
  }

  /** The first index at or after `from` that holds `c`. */
  function NextChar(s: string, from: nat, c: char): (r: Option<nat>)
    requires from <= |s|
    ensures r.Some? ==> from <= r.value < |s| && s[r.value] == c
    ensures forall k :: from <= k < |s| && s[k] == c ==> r.Some? && r.value <= k
    decreases |s| - from
  {
    if from == |s| then None
    else if s[from] == c then Some(from)
    else NextChar(s, from + 1, c)
  }

  /** The first index at or after `from` where `c` occurs twice in a row. */
  function NextPair(s: string, from: nat, c: char): (r: Option<nat>)
    requires from <= |s|
    ensures r.Some? ==> from <= r.value && r.value + 2 <= |s| && s[r.value] == c && s[r.value + 1] == c
    ensures forall k :: from <= k && k + 1 < |s| && s[k] == c && s[k + 1] == c ==> r.Some? && r.value <= k
    decreases |s| - from
  {
    if from + 1 >= |s| then None
    else if s[from] == c && s[from + 1] == c then Some(from)
    else NextPair(s, from + 1, c)
  }

  /** The bold match the engine reports among those opening at `from` or later. */
  function FindBoldFrom(s: string, from: nat): (r: Option<Span>)
    requires from <= |s|
    ensures r.Some? ==> from <= r.value.start && BoldAt(s, r.value.start, r.value.len)
    ensures forall p, n :: from <= p && BoldAt(s, p, n) ==> r.Some? && Precedes(r.value, p, n)
    decreases |s| - from
  {
    if from + 3 > |s| then None
    else if IsEmphasisChar(s[from]) && s[from + 1] == s[from] then
      match NextPair(s, from + 3, s[from])
      case Some(j) => Some(Span(from, j - from - 2))
      case None => FindBoldFrom(s, from + 1)
    else FindBoldFrom(s, from + 1)
  }

  /** The italic match the engine reports among those opening at `from` or later. */
  function FindItalicFrom(s: string, from: nat): (r: Option<Span>)
    requires from <= |s|
    ensures r.Some? ==> from <= r.value.start && ItalicAt(s, r.value.start, r.value.len)
    ensures forall p, n :: from <= p && ItalicAt(s, p, n) ==> r.Some? && Precedes(r.value, p, n)
    decreases |s| - from
  {
    if from + 2 > |s| then None
    else if IsEmphasisChar(s[from]) then
      match NextChar(s, from + 2, s[from])
      case Some(j) => Some(Span(from, j - from - 1))
      case None => FindItalicFrom(s, from + 1)
    else FindItalicFrom(s, from + 1)
  }

  /** The code match the engine reports among those opening at `from` or later. */
  function FindCodeFrom(s: string, from: nat): (r: Option<Span>)
    requires from <= |s|
    ensures r.Some? ==> from <= r.value.start && CodeAt(s, r.value.start, r.value.len)
    ensures forall p, n :: from <= p && CodeAt(s, p, n) ==> r.Some? && Precedes(r.value, p, n)
    decreases |s| - from
  {
    if from + 1 > |s| then None
    else if s[from] == '`' then
      match NextChar(s, from + 1, '`')
      case Some(j) =>
        if j > from + 1 then Some(Span(from, j - from - 1)) else FindCodeFrom(s, from + 1)
      case None => FindCodeFrom(s, from + 1)
    else FindCodeFrom(s, from + 1)
  }

  /** `remaining.match(bold)`: the bold match a backtracking engine reports, if any. */
  function FindBold(s: string): (r: Option<Span>)
    ensures r.Some? ==> BoldAt(s, r.value.start, r.value.len)
    ensures forall p, n :: BoldAt(s, p, n) ==> r.Some? && Precedes(r.value, p, n)
  {
    FindBoldFrom(s, 0)
  }

  /** `remaining.match(italic)`, before the guard: the italic match the engine reports, if any. */
  function FindItalic(s: string): (r: Option<Span>)
    ensures r.Some? ==> ItalicAt(s, r.value.start, r.value.len)
    ensures forall p, n :: ItalicAt(s, p, n) ==> r.Some? && Precedes(r.value, p, n)
  {
    FindItalicFrom(s, 0)
  }

  /** `remaining.match(code)`: the code match the engine reports, if any. */
  function FindCode(s: string): (r: Option<Span>)
    ensures r.Some? ==> CodeAt(s, r.value.start, r.value.len)
    ensures forall p, n :: CodeAt(s, p, n) ==> r.Some? && Precedes(r.value, p, n)
  {
    FindCodeFrom(s, 0)
  }

  /** The text a node stands for: its content wrapped in the delimiters it was cut out with. */
  function Render(node: Inline): string {
    match node
    case Text(t) => t
    case Bold(d, c) => [d, d] + c + [d, d]
    case Italic(d, c) => [d] + c + [d]
    case Code(c) => "`" + c + "`"
  }

  /** The text a node sequence stands for. */
  function Concat(ps: seq<Inline>): string {
    if ps == [] then [] else Render(ps[0]) + Concat(ps[1..])
  }

  /** What every node the tokenizer emits satisfies. */
  predicate NodeOk(node: Inline) {
    match node
    case Text(t) => t != []
    case Bold(d, c) => IsEmphasisChar(d) && c != []
    case Italic(d, c) => IsEmphasisChar(d) && c != []
    case Code(c) => c != [] && '`' !in c
  }

  /** No node is malformed and no two text runs are adjacent. */
  predicate WellFormed(ps: seq<Inline>) {
    (forall i :: 0 <= i < |ps| ==> NodeOk(ps[i]))
    && (forall i :: 0 < i < |ps| ==> !(ps[i - 1].Text? && ps[i].Text?))
  }

  /** `if (match[1]) parts.push(match[1])`: a prefix becomes a text run only when it is non-empty. */
  function Lead(before: string): (r: seq<Inline>)
    ensures Concat(r) == before
  {
    if before == [] then [] else [Text(before)]
  }

  /** `!prefix.endsWith("*") && !prefix.endsWith("_")` is the italic guard. */
  predicate EndsWithEmphasis(s: string) {
    |s| > 0 && IsEmphasisChar(s[|s| - 1])
  }

  /** `s` cut into a prefix, a `w`-wide opening delimiter, `n` characters, a closing delimiter and the rest. */
  lemma CutAround<T>(s: seq<T>, p: nat, w: nat, n: nat)
    requires p + 2 * w + n <= |s|
    ensures s == s[..p] + s[p..p + w] + s[p + w..p + w + n] + s[p + w + n..p + 2 * w + n] + s[p + 2 * w + n..]
  {
  }

  /** `s` read as a prefix, a delimited piece (`open`, `n` characters, `close`) and the rest. */
  lemma DelimitedCut<T>(s: seq<T>, p: nat, w: nat, n: nat, open: seq<T>, close: seq<T>)
    requires p + 2 * w + n <= |s| && s[p..p + w] == open && s[p + w + n..p + 2 * w + n] == close
    ensures s == s[..p] + (open + s[p + w..p + w + n] + close) + s[p + 2 * w + n..]
  {
    CutAround(s, p, w, n);
    var a, c, b := s[..p], s[p + w..p + w + n], s[p + 2 * w + n..];
    assert a + open + c + close + b == a + (open + c + close) + b;
  }

  /** Cut `s` around a bold match: prefix, span, rest. */
  function BoldSplit(s: string, m: Span): (r: Split)
    requires BoldAt(s, m.start, m.len)
    ensures s == r.before + Render(r.node) + r.after
    ensures r.node.Bold? && NodeOk(r.node)
    ensures r.before == s[..m.start] && r.after == s[m.start + m.len + 4..]
    ensures r.node.delim == s[m.start] && r.node.content == s[m.start + 2..m.start + 2 + m.len]
  {
    var p, n := m.start, m.len;
    DelimitedCut(s, p, 2, n, [s[p], s[p]], [s[p], s[p]]);
    Split(s[..p], Bold(s[p], s[p + 2..p + 2 + n]), s[p + n + 4..])
  }

  /** Cut `s` around an italic match: prefix, span, rest. */
  function ItalicSplit(s: string, m: Span): (r: Split)
    requires ItalicAt(s, m.start, m.len)
    ensures s == r.before + Render(r.node) + r.after
    ensures r.node.Italic? && NodeOk(r.node)
    ensures r.before == s[..m.start] && r.after == s[m.start + m.len + 2..]
    ensures r.node.delim == s[m.start] && r.node.content == s[m.start + 1..m.start + 1 + m.len]
  {
    var p, n := m.start, m.len;
    DelimitedCut(s, p, 1, n, [s[p]], [s[p]]);
    Split(s[..p], Italic(s[p], s[p + 1..p + 1 + n]), s[p + n + 2..])
  }

  /** Cut `s` around a code match: prefix, span, rest. */
  function CodeSplit(s: string, m: Span): (r: Split)
    requires CodeAt(s, m.start, m.len)
    ensures s == r.before + Render(r.node) + r.after
    ensures r.node.Code? && NodeOk(r.node)
    ensures r.before == s[..m.start] && r.after == s[m.start + m.len + 2..]
    ensures r.node.content == s[m.start + 1..m.start + 1 + m.len]
  {
    var p, n := m.start, m.len;
    var c := s[p + 1..p + 1 + n];
    assert forall k :: 0 <= k < |c| ==> c[k] == s[p + 1 + k];
    DelimitedCut(s, p, 1, n, "`", "`");
    Split(s[..p], Code(c), s[p + n + 2..])
  }

  /** The groups of `remaining.match(bold)`: prefix, bold node (delimiter and content), rest. */
  function MatchBold(s: string): (r: Option<Split>)
    ensures r.Some? ==> s == r.value.before + Render(r.value.node) + r.value.after
    ensures r.Some? ==> r.value.node.Bold? && NodeOk(r.value.node)
    ensures r.Some? <==> FindBold(s).Some?
    ensures r.Some? ==> r.value.before == s[..FindBold(s).value.start] && |r.value.node.content| == FindBold(s).value.len
  {
    var m := FindBold(s);
    if m.Some? then Some(BoldSplit(s, m.value)) else None
  }

  /** The groups of `remaining.match(italic)`: prefix, italic node (delimiter and content), rest. */
  function MatchItalic(s: string): (r: Option<Split>)
    ensures r.Some? ==> s == r.value.before + Render(r.value.node) + r.value.after
    ensures r.Some? ==> r.value.node.Italic? && NodeOk(r.value.node)
    ensures r.Some? <==> FindItalic(s).Some?
    ensures r.Some? ==> r.value.before == s[..FindItalic(s).value.start] && |r.value.node.content| == FindItalic(s).value.len
  {
    var m := FindItalic(s);
    if m.Some? then Some(ItalicSplit(s, m.value)) else None
  }

  /** The groups of `remaining.match(code)`: prefix, code node, rest. */
  function MatchCode(s: string): (r: Option<Split>)
    ensures r.Some? ==> s == r.value.before + Render(r.value.node) + r.value.after
    ensures r.Some? ==> r.value.node.Code? && NodeOk(r.value.node)
    ensures r.Some? <==> FindCode(s).Some?
    ensures r.Some? ==> r.value.before == s[..FindCode(s).value.start] && |r.value.node.content| == FindCode(s).value.len
  {
    var m := FindCode(s);
    if m.Some? then Some(CodeSplit(s, m.value)) else None
  }

  /**
    One pass of the loop body: bold over the whole text first, then italic subject to its
    guard, then code; none when no construct matches.
  */
  function NextSpan(s: string): (r: Option<Split>)
    ensures r.Some? ==> s == r.value.before + Render(r.value.node) + r.value.after
    ensures r.Some? ==> !r.value.node.Text? && NodeOk(r.value.node)
  {
    var bold := MatchBold(s);
    if bold.Some? then bold
    else
      var italic := MatchItalic(s);
      if italic.Some? && !EndsWithEmphasis(italic.value.before) then italic
      else MatchCode(s)
  }

  /** The nodes `renderInline` pushes for `s`, in order. */
  function Tokenize(s: string): seq<Inline>
    decreases |s|
  {
    if s == [] then []
    else
      match NextSpan(s)
      case None => [Text(s)]
      case Some(sp) =>
        assert |Render(sp.node)| > 0;
        Lead(sp.before) + [sp.node] + Tokenize(sp.after)
  }

  /**
    `renderInline`: the while loop over `remaining`, trying bold, then italic with its guard,
    then code, and pushing the remaining text once nothing matches.
  */
  method RenderInline(line: string) returns (parts: seq<Inline>)
    ensures parts == Tokenize(line)
    ensures Concat(parts) == line
    ensures WellFormed(parts)
  {
    parts := [];
    var remaining := line;
    while |remaining| > 0
      invariant parts + Tokenize(remaining) == Tokenize(line)
      decreases |remaining|
    {
      ghost var pushed, scanned := parts, remaining;
      var boldMatch := MatchBold(remaining);
      if boldMatch.Some? {
        if boldMatch.value.before != [] {
          parts := parts + [Text(boldMatch.value.before)];
        }
        parts := parts + [boldMatch.value.node];
        remaining := boldMatch.value.after;
        PassAdvances(pushed, parts, scanned, boldMatch.value);
        continue;
      }

      var italicMatch := MatchItalic(remaining);
      if italicMatch.Some? && !EndsWithEmphasis(italicMatch.value.before) {
        if italicMatch.value.before != [] {
          parts := parts + [Text(italicMatch.value.before)];
        }
        parts := parts + [italicMatch.value.node];
        remaining := italicMatch.value.after;
        PassAdvances(pushed, parts, scanned, italicMatch.value);
        continue;
      }

      var codeMatch := MatchCode(remaining);
      if codeMatch.Some? {
        if codeMatch.value.before != [] {
          parts := parts + [Text(codeMatch.value.before)];
        }
        parts := parts + [codeMatch.value.node];
        remaining := codeMatch.value.after;
        PassAdvances(pushed, parts, scanned, codeMatch.value);
        continue;
      }

      LastPass(remaining);
      parts := parts + [Text(remaining)];
      break;
    }
    TokenizeRoundTrip(line);
    TokenizeWellFormed(line);
  }

  /** One pass of the loop keeps what is pushed plus what is left to scan equal to the whole. */
  lemma PassAdvances(pushed: seq<Inline>, parts: seq<Inline>, s: string, sp: Split)
    requires NextSpan(s) == Some(sp)
    requires parts == (if sp.before != [] then pushed + [Text(sp.before)] else pushed) + [sp.node]
    ensures parts + Tokenize(sp.after) == pushed + Tokenize(s)
  {
    PushedLead(pushed, parts, sp.before, sp.node);
    TokenizeUnfold(s);
    AppendAssoc(pushed, Lead(sp.before), [sp.node], Tokenize(sp.after));
  }

  /** The two pushes of a pass are `Lead` of the prefix, then the span. */
  lemma PushedLead(pushed: seq<Inline>, parts: seq<Inline>, before: string, node: Inline)
    requires parts == (if before != [] then pushed + [Text(before)] else pushed) + [node]
    ensures parts == pushed + Lead(before) + [node]
  {
    if before == [] {
      assert pushed + Lead(before) == pushed;
    }
  }

  /** With no span left, the rest of the line is one text run. */
  lemma LastPass(s: string)
    requires s != [] && NextSpan(s).None?
    ensures Tokenize(s) == [Text(s)]
  {
  }

  lemma Assoc3<T>(x: seq<T>, y: seq<T>, z: seq<T>)
    ensures (x + y) + z == x + (y + z)
  {
  }

  lemma AppendAssoc<T>(a: seq<T>, b: seq<T>, c: seq<T>, d: seq<T>)
    ensures (a + b + c) + d == a + (b + c + d)
  {
  }

  lemma TokenizeUnfold(s: string)
    requires NextSpan(s).Some?
    ensures var sp := NextSpan(s).value; Tokenize(s) == Lead(sp.before) + [sp.node] + Tokenize(sp.after)
  {
    assert s != [];
  }

  lemma ConcatConsAppend(a: seq<Inline>, b: seq<Inline>)
    requires a != []
    ensures Concat(a + b) == Render(a[0]) + Concat(a[1..] + b)
  {
    assert (a + b)[1..] == a[1..] + b;
  }

  lemma {:induction false} ConcatAppend(a: seq<Inline>, b: seq<Inline>)
    ensures Concat(a + b) == Concat(a) + Concat(b)
  {
    if a == [] {
      assert a + b == b;
    } else {
      ConcatAppend(a[1..], b);
      ConcatConsAppend(a, b);
      Assoc3(Render(a[0]), Concat(a[1..]), Concat(b));
    }
  }

  /** Wrapping every span back in its delimiters and concatenating the nodes reproduces the line. */
  lemma {:induction false} TokenizeRoundTrip(s: string)
    ensures Concat(Tokenize(s)) == s
    decreases |s|
  {
    if s != [] {
      match NextSpan(s)
      case None =>
        assert Concat([Text(s)]) == s + Concat([]);
      case Some(sp) =>
        TokenizeRoundTrip(sp.after);
        ConcatAppend(Lead(sp.before) + [sp.node], Tokenize(sp.after));
        ConcatAppend(Lead(sp.before), [sp.node]);
        assert Concat([sp.node]) == Render(sp.node) + Concat([]);
    }
  }

  /** No text run is empty, no two are adjacent, and every span is non-empty and delimited as its kind demands. */
  lemma {:induction false} TokenizeWellFormed(s: string)
    ensures WellFormed(Tokenize(s))
    decreases |s|
  {
    if s != [] && NextSpan(s).Some? {
      var sp := NextSpan(s).value;
      TokenizeUnfold(s);
      TokenizeWellFormed(sp.after);
      LeadSpanWellFormed(sp.before, sp.node, Tokenize(sp.after));
    }
  }

  /** A text run (if any), one span, then a well-formed tail is well formed. */
  lemma LeadSpanWellFormed(before: string, node: Inline, rest: seq<Inline>)
    requires NodeOk(node) && !node.Text?
    requires WellFormed(rest)
    ensures WellFormed(Lead(before) + [node] + rest)
  {
    var r := Lead(before) + [node] + rest;
    var k := |Lead(before)|;
    assert r[k] == node;
    forall i | k < i < |r| ensures r[i] == rest[i - k - 1] { }
  }
}
