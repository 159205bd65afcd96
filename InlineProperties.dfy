/**
  What `renderInline` does, stated against the regular-expression semantics of its three
  patterns rather than against the searches that compute them. Together the four lemmas
  `TokenizeFirstBold`, `TokenizeFirstItalic`, `TokenizeFirstCode` and `TokenizePlain` pin
  down every pass of the loop: which construct wins, where it is cut, and what is left.
*/
module InlineProperties {
  import opened Wrappers
  import opened InlineTokenizer

  /** `(p, n)` is the bold match the engine reports: leftmost, then shortest. */
  ghost predicate FirstBold(s: string, p: nat, n: nat) {
    BoldAt(s, p, n) && forall p', n' :: BoldAt(s, p', n') ==> Precedes(Span(p, n), p', n')
  }

  ghost predicate FirstItalic(s: string, p: nat, n: nat) {
    ItalicAt(s, p, n) && forall p', n' :: ItalicAt(s, p', n') ==> Precedes(Span(p, n), p', n')
  }

  ghost predicate FirstCode(s: string, p: nat, n: nat) {
    CodeAt(s, p, n) && forall p', n' :: CodeAt(s, p', n') ==> Precedes(Span(p, n), p', n')
  }

  ghost predicate NoBold(s: string) {
    forall p, n :: !BoldAt(s, p, n)
  }

  ghost predicate NoCode(s: string) {
    forall p, n :: !CodeAt(s, p, n)
  }

  /** The italic pattern does not fire: it has no match, or its first match is refused by the guard. */
  ghost predicate ItalicBlocked(s: string) {
    forall p: nat, n: nat :: FirstItalic(s, p, n) ==> p <= |s| && EndsWithEmphasis(s[..p])
  }

  /** Two matches that both precede each other are the same match. */
  lemma PrecedesAntisymmetric(m: Span, p: nat, n: nat)
    requires Precedes(m, p, n) && Precedes(Span(p, n), m.start, m.len)
    ensures m == Span(p, n)
  {
  }

  lemma BoldPass(s: string, p: nat, n: nat)
    requires FirstBold(s, p, n)
    ensures NextSpan(s) == Some(Split(s[..p], Bold(s[p], s[p + 2..p + 2 + n]), s[p + n + 4..]))
  {
    var m := FindBold(s).value;
    PrecedesAntisymmetric(m, p, n);
    var r := BoldSplit(s, m);
    assert r.node == Bold(s[p], s[p + 2..p + 2 + n]);
    assert MatchBold(s) == Some(r);
  }

  /**
    Bold is tried over the whole remaining text first: whenever a bold match exists anywhere,
    the pass emits the text before the engine's bold match, the bold span with the delimiter
    that opened it, and goes on after the closing delimiter, whatever italic or code spans
    occur earlier in the line.
  */
  lemma TokenizeFirstBold(s: string, p: nat, n: nat)
    requires FirstBold(s, p, n)
    ensures Tokenize(s) == Lead(s[..p]) + [Bold(s[p], s[p + 2..p + 2 + n])] + Tokenize(s[p + n + 4..])
  {
    BoldPass(s, p, n);
    TokenizeUnfold(s);
  }

  lemma ItalicPass(s: string, p: nat, n: nat)
    requires NoBold(s) && FirstItalic(s, p, n) && !EndsWithEmphasis(s[..p])
    ensures NextSpan(s) == Some(Split(s[..p], Italic(s[p], s[p + 1..p + 1 + n]), s[p + n + 2..]))
  {
    var m := FindItalic(s).value;
    PrecedesAntisymmetric(m, p, n);
    assert MatchBold(s).None?;
    assert MatchItalic(s) == Some(ItalicSplit(s, m));
  }

  /** With no bold match anywhere, the first italic match wins unless the guard refuses it. */
  lemma TokenizeFirstItalic(s: string, p: nat, n: nat)
    requires NoBold(s) && FirstItalic(s, p, n) && !EndsWithEmphasis(s[..p])
    ensures Tokenize(s) == Lead(s[..p]) + [Italic(s[p], s[p + 1..p + 1 + n])] + Tokenize(s[p + n + 2..])
  {
    ItalicPass(s, p, n);
    TokenizeUnfold(s);
  }

  /** The italic pattern, when blocked, lets the pass fall through to the code pattern. */
  lemma ItalicFallsThrough(s: string)
    requires NoBold(s) && ItalicBlocked(s)
    ensures NextSpan(s) == MatchCode(s)
  {
    var it := FindItalic(s);
    if it.Some? {
      assert FirstItalic(s, it.value.start, it.value.len);
    }
    assert MatchBold(s).None?;
  }

  lemma CodePass(s: string, p: nat, n: nat)
    requires NoBold(s) && ItalicBlocked(s) && FirstCode(s, p, n)
    ensures NextSpan(s) == Some(Split(s[..p], Code(s[p + 1..p + 1 + n]), s[p + n + 2..]))
  {
    ItalicFallsThrough(s);
    var m := FindCode(s).value;
    PrecedesAntisymmetric(m, p, n);
    assert MatchCode(s) == Some(CodeSplit(s, m));
  }

  /**
    With no bold match and the italic pattern blocked (no match, or its first match refused by
    the guard: no later italic position is tried), the first code span wins.
  */
  lemma TokenizeFirstCode(s: string, p: nat, n: nat)
    requires NoBold(s) && ItalicBlocked(s) && FirstCode(s, p, n)
    ensures Tokenize(s) == Lead(s[..p]) + [Code(s[p + 1..p + 1 + n])] + Tokenize(s[p + n + 2..])
  {
    CodePass(s, p, n);
    TokenizeUnfold(s);
  }

  /** When no pattern fires, the whole remaining text is one text run. */
  lemma TokenizePlain(s: string)
    requires s != [] && NoBold(s) && ItalicBlocked(s) && NoCode(s)
    ensures Tokenize(s) == [Text(s)]
  {
    ItalicFallsThrough(s);
  }

  /** Text with no `*`, `_` or backtick comes out as one text run, unchanged. */
  lemma TokenizeNoMarkers(s: string)
    requires s != []
    requires forall k :: 0 <= k < |s| ==> s[k] != '*' && s[k] != '_' && s[k] != '`'
    ensures Tokenize(s) == [Text(s)]
  {
    TokenizePlain(s);
  }
}
