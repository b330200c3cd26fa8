/**
 * The JavaScript string operations the stream decoder relies on:
 * `String.prototype.split` with a non-empty string separator,
 * `startsWith`, and `trim`.
 */
module Text {
  import opened Wrappers

  /** `s.startsWith(prefix)`. */
  predicate StartsWith(s: string, prefix: string) {
    |prefix| <= |s| && s[..|prefix|] == prefix
  }

  /** The separator `d` occurs in `s` at index `i`. */
  predicate OccursAt(s: string, d: string, i: nat) {
    i + |d| <= |s| && s[i..i + |d|] == d
  }

  /** `s.includes(d)`. */
  predicate Contains(s: string, d: string) {
    exists i: nat | i <= |s| :: OccursAt(s, d, i)
  }

  /** `s.indexOf(d)`, with -1 as `None`. */
  function IndexOf(s: string, d: string): (r: Option<nat>)
    requires |d| > 0
    ensures r.Some? ==> OccursAt(s, d, r.value)
    decreases |s|
  {
    if |s| < |d| then None
    else if s[..|d|] == d then Some(0)
    else match IndexOf(s[1..], d)
      case None => None
      case Some(k) => Some(k + 1)
  }

  /** `k` is the leftmost occurrence of `d` in `s`. */
  predicate FirstAt(s: string, d: string, k: nat) {
    OccursAt(s, d, k) && forall j: nat :: j < k ==> !OccursAt(s, d, j)
  }

  /** `indexOf` finds the leftmost occurrence, and finds none only when there is none. */
  lemma {:induction false} IndexOfIsLeftmost(s: string, d: string)
    requires |d| > 0
    ensures IndexOf(s, d).Some? ==> FirstAt(s, d, IndexOf(s, d).value)
    ensures IndexOf(s, d).None? <==> !Contains(s, d)
    decreases |s|
  {
    if |s| >= |d| && s[..|d|] != d {
      IndexOfIsLeftmost(s[1..], d);
      ShiftOccurrence(s, d);
      assert !OccursAt(s, d, 0);
    }
  }

  /** An occurrence in `s[1..]` is an occurrence in `s` one place later, and back. */
  lemma ShiftOccurrence(s: string, d: string)
    requires |s| > 0
    ensures forall j: nat :: OccursAt(s[1..], d, j) ==> OccursAt(s, d, j + 1)
    ensures forall j: nat :: 1 <= j && OccursAt(s, d, j) ==> OccursAt(s[1..], d, j - 1)
  {
    forall j: nat
      ensures OccursAt(s[1..], d, j) <==> OccursAt(s, d, j + 1)
    {
      if j + |d| <= |s[1..]| {
        assert s[1..][j..j + |d|] == s[j + 1..j + 1 + |d|];
      }
    }
  }

  /**
   * `s.split(d)` for a non-empty separator: the text between successive
   * leftmost, non-overlapping occurrences of `d`. Never empty: `"".split(d)`
   * is `[""]`.
   */
  function Split(s: string, d: string): (r: seq<string>)
    requires |d| > 0
    ensures |r| >= 1
    decreases |s|
  {
    match IndexOf(s, d)
    case None => [s]
    case Some(k) => [s[..k]] + Split(s[k + |d|..], d)
  }

  /** `pieces.join(d)`. */
  function Join(pieces: seq<string>, d: string): string {
    if |pieces| == 0 then ""
    else if |pieces| == 1 then pieces[0]
    else pieces[0] + d + Join(pieces[1..], d)
  }

  function Last<T>(s: seq<T>): T
    requires |s| > 0
  {
    s[|s| - 1]
  }

  function AllButLast<T>(s: seq<T>): seq<T>
    requires |s| > 0
  {
    s[..|s| - 1]
  }

  /** One step of the split: the piece before the leftmost occurrence, then the split of the rest. */
  lemma SplitAt(s: string, d: string, k: nat)
    requires |d| > 0 && IndexOf(s, d) == Some(k)
    ensures Split(s, d) == [s[..k]] + Split(s[k + |d|..], d)
  {
  }

  /** Without an occurrence the split is the whole text. */
  lemma SplitNone(s: string, d: string)
    requires |d| > 0 && !Contains(s, d)
    ensures Split(s, d) == [s]
  {
    IndexOfIsLeftmost(s, d);
  }

  /** Joining the pieces of a split with the same separator gives the text back. */
  lemma {:induction false} JoinSplit(s: string, d: string)
    requires |d| > 0
    ensures Join(Split(s, d), d) == s
    decreases |s|
  {
    match IndexOf(s, d)
    case None =>
    case Some(k) =>
      var rest := s[k + |d|..];
      SplitAt(s, d, k);
      JoinSplit(rest, d);
      assert s == s[..k] + d + rest by {
        assert s[k..k + |d|] == d;
      }
  }

  /** No piece of a split contains the separator. */
  lemma {:induction false} SplitPiecesFree(s: string, d: string)
    requires |d| > 0
    ensures forall i :: 0 <= i < |Split(s, d)| ==> !Contains(Split(s, d)[i], d)
    decreases |s|
  {
    match IndexOf(s, d)
    case None =>
      IndexOfIsLeftmost(s, d);
    case Some(k) =>
      var rest := s[k + |d|..];
      IndexOfIsLeftmost(s, d);
      SplitAt(s, d, k);
      SplitPiecesFree(rest, d);
      PrefixBeforeFirstFree(s, d, k);
  }

  /** The text before the leftmost occurrence does not contain the separator. */
  lemma PrefixBeforeFirstFree(s: string, d: string, k: nat)
    requires |d| > 0 && k <= |s|
    requires forall j: nat :: j < k ==> !OccursAt(s, d, j)
    ensures !Contains(s[..k], d)
  {
    forall j: nat | j <= k
      ensures !OccursAt(s[..k], d, j)
    {
      if j + |d| <= k {
        assert s[..k][j..j + |d|] == s[j..j + |d|];
        assert !OccursAt(s, d, j);
      }
    }
  }

  /** The leftmost occurrence is the only one with no occurrence before it. */
  lemma LeftmostIsIndexOf(s: string, d: string, k: nat)
    requires |d| > 0 && FirstAt(s, d, k)
    ensures IndexOf(s, d) == Some(k)
  {
    IndexOfIsLeftmost(s, d);
    var r := IndexOf(s, d);
    assert r.Some?;
    assert !(r.value < k);
  }

  /** Appending text cannot move an occurrence that already lies inside `s`. */
  lemma IndexOfAppend(s: string, c: string, d: string, k: nat)
    requires |d| > 0 && FirstAt(s, d, k)
    ensures IndexOf(s + c, d) == Some(k)
  {
    var sc := s + c;
    assert sc[k..k + |d|] == s[k..k + |d|];
    forall j: nat | j < k
      ensures !OccursAt(sc, d, j)
    {
      if j + |d| <= |sc| {
        assert sc[j..j + |d|] == s[j..j + |d|];
        assert !OccursAt(s, d, j);
      }
    }
    LeftmostIsIndexOf(sc, d, k);
  }

  lemma SliceAppend(s: string, c: string, k: nat, m: nat)
    requires k <= m <= |s|
    ensures (s + c)[..k] == s[..k] && (s + c)[m..] == s[m..] + c
  {
  }

  /**
   * Splitting `s + c` re-splits only the last piece of `s`: every earlier
   * piece stays as it was. This is what makes a carried remainder correct.
   */
  lemma {:induction false} SplitAppend(s: string, c: string, d: string)
    requires |d| > 0
    ensures Split(s + c, d) == AllButLast(Split(s, d)) + Split(Last(Split(s, d)) + c, d)
    decreases |s|
  {
    match IndexOf(s, d)
    case None =>
      assert Split(s, d) == [s];
    case Some(k) =>
      var rest := s[k + |d|..];
      IndexOfIsLeftmost(s, d);
      IndexOfAppend(s, c, d, k);
      SplitAppend(rest, c, d);
      SplitAt(s, d, k);
      SplitAt(s + c, d, k);
      SliceAppend(s, c, k, k + |d|);
      var t := Split(rest, d);
      ConsPieces(s[..k], t, Split(rest + c, d), Split(Last(t) + c, d), Split(s, d), Split(s + c, d));
  }

  /** The pieces before a first piece `x`, reassembled. */
  lemma ConsPieces(x: string, t: seq<string>, tc: seq<string>, u: seq<string>, whole: seq<string>, wholec: seq<string>)
    requires |t| > 0 && whole == [x] + t && wholec == [x] + tc && tc == AllButLast(t) + u
    ensures wholec == AllButLast(whole) + u && Last(whole) == Last(t)
  {
  }

  /** A string with no `d[0]` in it is one piece. */
  lemma SplitWithoutSeparator(p: string, d: string)
    requires |d| > 0 && d[0] !in p
    ensures Split(p, d) == [p]
  {
    forall i: nat | i <= |p|
      ensures !OccursAt(p, d, i)
    {
      if i + |d| <= |p| {
        assert p[i..i + |d|][0] == p[i];
      }
    }
    SplitNone(p, d);
  }

  /** With no `d[0]` in `p`, the first piece of `p + d + rest` is `p`. */
  lemma SplitAfterFirst(p: string, d: string, rest: string)
    requires |d| > 0 && d[0] !in p
    ensures Split(p + d + rest, d) == [p] + Split(rest, d)
  {
    var s := p + d + rest;
    assert s[|p|..|p| + |d|] == d;
    forall j: nat | j < |p|
      ensures !OccursAt(s, d, j)
    {
      if j + |d| <= |s| {
        assert s[j..j + |d|][0] == p[j];
      }
    }
    LeftmostIsIndexOf(s, d, |p|);
    SplitAt(s, d, |p|);
    assert s[..|p|] == p;
    assert s[|p| + |d|..] == rest;
  }

  // ---- trim ----

  /** The characters JavaScript's `trim` removes: WhiteSpace and LineTerminator of ECMA-262. */
  predicate IsJsWhitespace(c: char) {
    c == '\t' || c == '\n' || c == '\U{000B}' || c == '\U{000C}' || c == '\r' || c == ' '
    || c == '\U{00A0}' || c == '\U{1680}' || ('\U{2000}' <= c <= '\U{200A}')
    || c == '\U{2028}' || c == '\U{2029}' || c == '\U{202F}' || c == '\U{205F}'
    || c == '\U{3000}' || c == '\U{FEFF}'
  }

  predicate AllWhitespace(s: string) {
    forall i :: 0 <= i < |s| ==> IsJsWhitespace(s[i])
  }

  /** `s.trimStart()`: drop the leading whitespace, and only that. */
  function TrimStart(s: string): (r: string)
    ensures |r| <= |s| && r == s[|s| - |r|..]
    ensures AllWhitespace(s[..|s| - |r|])
    ensures r == [] || !IsJsWhitespace(r[0])
  {
    if |s| > 0 && IsJsWhitespace(s[0]) then
      var r := TrimStart(s[1..]);
      assert s[..|s| - |r|] == [s[0]] + s[1..][..|s[1..]| - |r|];
      r
    else s
  }

  /** `s.trimEnd()`: drop the trailing whitespace, and only that. */
  function TrimEnd(s: string): (r: string)
    ensures |r| <= |s| && r == s[..|r|]
    ensures AllWhitespace(s[|r|..])
    ensures r == [] || !IsJsWhitespace(r[|r| - 1])
  {
    if |s| > 0 && IsJsWhitespace(s[|s| - 1]) then
      var r := TrimEnd(s[..|s| - 1]);
      assert s[|r|..] == s[..|s| - 1][|r|..] + [s[|s| - 1]];
      r
    else s
  }

  /** `s.trim()`. */
  function Trim(s: string): string {
    TrimEnd(TrimStart(s))
  }

  /** `!s.trim()` holds exactly when every character of `s` is whitespace. */
  lemma TrimEmptyIffBlank(s: string)
    ensures Trim(s) == "" <==> AllWhitespace(s)
  {
  }
}
