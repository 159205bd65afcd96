/**
  The character classes and string helpers of JavaScript that the renderer leans on:
  the white space of `\s` and `String.prototype.trim`, the `.` of a regular expression
  without the `s` flag, and `String.prototype.split("\n")`.
*/
module Strings {

  /** JavaScript's WhiteSpace and LineTerminator characters: what `\s` matches and `trim` removes. */
  predicate IsWhitespace(c: char) {
    c == ' ' || c == '\t' || c == '\n' || c == '\U{B}' || c == '\U{C}' || c == '\r'
    || c == '\U{A0}' || c == '\U{1680}' || ('\U{2000}' <= c <= '\U{200A}')
    || c == '\U{2028}' || c == '\U{2029}' || c == '\U{202F}' || c == '\U{205F}'
    || c == '\U{3000}' || c == '\U{FEFF}'
  }

  /** What `.` matches in a regular expression without the `s` flag: anything but a line terminator. */
  predicate IsLineChar(c: char) {
    c != '\n' && c != '\r' && c != '\U{2028}' && c != '\U{2029}'
  }

  predicate IsDigit(c: char) {
    '0' <= c <= '9'
  }

  predicate AllWhitespace(s: string) {
    forall k :: 0 <= k < |s| ==> IsWhitespace(s[k])
  }

  predicate AllLineChars(s: string) {
    forall k :: 0 <= k < |s| ==> IsLineChar(s[k])
  }

  /** The end of the longest run of characters satisfying `P` that starts at `from`. */
  function RunEnd(s: string, from: nat, P: char -> bool): (e: nat)
    requires from <= |s|
    ensures from <= e <= |s|
    ensures forall k :: from <= k < e ==> P(s[k])
    ensures e < |s| ==> !P(s[e])
    decreases |s| - from
  {
    if from < |s| && P(s[from]) then RunEnd(s, from + 1, P) else from
  }

  /** `String.prototype.trimStart`. */
  function TrimStart(s: string): (t: string)
    ensures |t| <= |s| && t == s[|s| - |t|..]
    ensures AllWhitespace(s[..|s| - |t|])
    ensures t == [] || !IsWhitespace(t[0])
  {
    if s != [] && IsWhitespace(s[0]) then
      var t := TrimStart(s[1..]);
      assert s[1..][..|s| - 1 - |t|] == s[1..|s| - |t|];
      t
    else s
  }

  /** `String.prototype.trimEnd`. */
  function TrimEnd(s: string): (t: string)
    ensures |t| <= |s| && t == s[..|t|]
    ensures AllWhitespace(s[|t|..])
    ensures t == [] || !IsWhitespace(t[|t| - 1])
  {
    if s != [] && IsWhitespace(s[|s| - 1]) then
      var t := TrimEnd(s[..|s| - 1]);
      assert s[..|s| - 1][..|t|] == s[..|t|];
      assert s[|t|..] == s[..|s| - 1][|t|..] + [s[|s| - 1]];
      t
    else s
  }

  /** `String.prototype.trim`. */
  function Trim(s: string): (r: string)
    ensures |r| <= |s|
    ensures r == [] || (!IsWhitespace(r[0]) && !IsWhitespace(r[|r| - 1]))
  {
    TrimEnd(TrimStart(s))
  }

  /** Where the text `trim` keeps starts in `s`. */
  function TrimStartIndex(s: string): nat {
    |s| - |TrimStart(s)|
  }

  /**
    `t` is `s` with white space cut from both ends, `a` characters in: white space before
    and after it, and (unless it is empty) no white space at either of its ends.
  */
  predicate TrimmedAt(s: string, a: nat, t: string) {
    a + |t| <= |s| && t == s[a..a + |t|]
    && (forall k :: 0 <= k < a ==> IsWhitespace(s[k]))
    && (forall k :: a + |t| <= k < |s| ==> IsWhitespace(s[k]))
    && (t != [] ==> !IsWhitespace(s[a]) && !IsWhitespace(s[a + |t| - 1]))
  }

  /** What `trim` keeps is the slice of `s` between its leading and its trailing white space. */
  lemma TrimSlice(s: string)
    ensures TrimmedAt(s, TrimStartIndex(s), Trim(s))
  {
    CutBothEnds(s, TrimStart(s), Trim(s));
  }

  /** White space cut from the front of `s` to give `u`, then from the back of `u` to give `t`. */
  lemma CutBothEnds(s: string, u: string, t: string)
    requires |u| <= |s| && u == s[|s| - |u|..] && AllWhitespace(s[..|s| - |u|]) && (u == [] || !IsWhitespace(u[0]))
    requires |t| <= |u| && t == u[..|t|] && AllWhitespace(u[|t|..]) && (t == [] || !IsWhitespace(t[|t| - 1]))
    ensures TrimmedAt(s, |s| - |u|, t)
  {
    var a := |s| - |u|;
    PrefixOfSuffix(s, a, u, |t|);
    assert forall k :: 0 <= k < a ==> s[..a][k] == s[k];
    assert forall k :: a + |t| <= k < |s| ==> s[a + |t|..][k - a - |t|] == s[k];
  }

  /** Cutting a suffix of `s` at `k` cuts `s` itself at `a + k`. */
  lemma PrefixOfSuffix<T>(s: seq<T>, a: nat, u: seq<T>, k: nat)
    requires a <= |s| && u == s[a..] && k <= |u|
    ensures u[..k] == s[a..a + k] && u[k..] == s[a + k..]
    ensures 0 < k ==> u[0] == s[a] && u[k - 1] == s[a + k - 1]
  {
  }

  /** A line is blank for the renderer exactly when it is white space only. */
  lemma TrimEmptyIffWhitespace(s: string)
    ensures Trim(s) == [] <==> AllWhitespace(s)
  {
    var u := TrimStart(s);
    var a := |s| - |u|;
    if Trim(s) == [] {
      assert u[0..] == u;
      assert s[..a] == s;
    }
  }

  /** `String.prototype.split("\n")`: the pieces between line feeds, at least one. */
  function SplitLines(s: string): (r: seq<string>)
    ensures |r| >= 1
    ensures forall i :: 0 <= i < |r| ==> '\n' !in r[i]
  {
    if s == [] then [""]
    else
      var rest := SplitLines(s[1..]);
      if s[0] == '\n' then [""] + rest
      else [[s[0]] + rest[0]] + rest[1..]
  }

  /** `Array.prototype.join("\n")`, the inverse of `SplitLines`. */
  function JoinLines(ls: seq<string>): string
    requires |ls| >= 1
  {
    if |ls| == 1 then ls[0] else ls[0] + "\n" + JoinLines(ls[1..])
  }

  /** Splitting loses nothing: joining the lines with line feeds gives the text back. */
  lemma {:induction false} JoinSplitLines(s: string)
    ensures JoinLines(SplitLines(s)) == s
  {
    if s != [] {
      var rest := SplitLines(s[1..]);
      JoinSplitLines(s[1..]);
      if s[0] == '\n' {
        assert SplitLines(s)[1..] == rest;
      } else {
        var r := SplitLines(s);
        if |rest| == 1 {
          assert r == [[s[0]] + rest[0]];
        } else {
          assert r[1..] == rest[1..];
          assert JoinLines(r) == [s[0]] + rest[0] + "\n" + JoinLines(rest[1..]);
        }
      }
    }
  }

  /** Splitting a joined list of line-feed-free lines gives the lines back. */
  lemma {:induction false} SplitJoinLines(ls: seq<string>)
    requires |ls| >= 1
    requires forall i :: 0 <= i < |ls| ==> '\n' !in ls[i]
    ensures SplitLines(JoinLines(ls)) == ls
  {
    if |ls| == 1 {
      SplitSingleLine(ls[0]);
    } else {
      SplitJoinLines(ls[1..]);
      SplitFirstLine(ls[0], JoinLines(ls[1..]));
    }
  }

  lemma {:induction false} SplitSingleLine(a: string)
    requires '\n' !in a
    ensures SplitLines(a) == [a]
  {
    if a != [] {
      SplitSingleLine(a[1..]);
      assert [a[0]] + a[1..] == a;
    }
  }

  lemma {:induction false} SplitFirstLine(a: string, c: string)
    requires '\n' !in a
    ensures SplitLines(a + "\n" + c) == [a] + SplitLines(c)
  {
    if a == [] {
      assert a + "\n" + c == "\n" + c;
      assert ("\n" + c)[1..] == c;
    } else {
      SplitFirstLine(a[1..], c);
      assert (a + "\n" + c)[1..] == a[1..] + "\n" + c;
      assert [a[0]] + a[1..] == a;
    }
  }
}
