/**
 * The part of Go's `strings` and `fmt` packages the update manager relies on:
 * `Index`, `Split`, `ReplaceAll`, `HasPrefix`, `TrimSpace` and `%d` formatting.
 * Every separator and pattern the update manager passes is a non-empty
 * constant, so the empty-separator behaviour of Go is not modelled.
 */
module Strings {
  import opened Wrappers

  /** `sep` occurs in `s` starting at index `j`. */
  predicate OccursAt(s: string, sep: string, j: int) {
    0 <= j && j + |sep| <= |s| && s[j..j + |sep|] == sep
  }

  /** `sep` occurs nowhere in `s`. */
  ghost predicate Free(s: string, sep: string) {
    forall j :: !OccursAt(s, sep, j)
  }

  /** Occurrences in `s` past its first character are those of `s[1..]`, shifted. */
  lemma OccursAtShift(s: string, sep: string, j: int)
    requires s != [] && 1 <= j
    ensures OccursAt(s, sep, j) <==> OccursAt(s[1..], sep, j - 1)
  {
    if j + |sep| <= |s| {
      assert s[1..][j - 1..j - 1 + |sep|] == s[j..j + |sep|];
    }
  }

  /** strings.Index: the first index at which `sep` occurs in `s`, if any
      (IndexOfFinds states that it is the first). */
  function IndexOf(s: string, sep: string): (r: Option<nat>)
    requires sep != []
    ensures r.Some? ==> OccursAt(s, sep, r.value)
  {
    IndexFrom(s, sep, 0)
  }

  /** The first index from `k` on at which `sep` occurs in `s`, if any. */
  function IndexFrom(s: string, sep: string, k: nat): (r: Option<nat>)
    requires sep != []
    ensures r.Some? ==> k <= r.value && OccursAt(s, sep, r.value)
    decreases |s| - k
  {
    if |s| < k + |sep| then None
    else if OccursAt(s, sep, k) then Some(k)
    else IndexFrom(s, sep, k + 1)
  }

  /** IndexOf finds the first occurrence of `sep`, and finds none only when
      `sep` occurs nowhere. */
  lemma IndexOfFinds(s: string, sep: string)
    requires sep != []
    ensures var r := IndexOf(s, sep);
      && (r.Some? ==> forall j | 0 <= j < r.value :: !OccursAt(s, sep, j))
      && (r.None? ==> Free(s, sep))
  {
    IndexFromFinds(s, sep, 0);
  }

  lemma {:induction false} IndexFromFinds(s: string, sep: string, k: nat)
    requires sep != []
    ensures var r := IndexFrom(s, sep, k);
      && (r.Some? ==> forall j | k <= j < r.value :: !OccursAt(s, sep, j))
      && (r.None? ==> forall j | k <= j :: !OccursAt(s, sep, j))
    decreases |s| - k
  {
    if |s| >= k + |sep| && !OccursAt(s, sep, k) {
      IndexFromFinds(s, sep, k + 1);
    }
  }

  /** Searching `s` from index k >= 1 is searching `s[1..]` from k - 1. */
  lemma {:induction false} IndexFromShift(s: string, sep: string, k: nat)
    requires sep != [] && s != [] && 1 <= k
    ensures IndexFrom(s, sep, k) ==
      match IndexFrom(s[1..], sep, k - 1) case None => None case Some(i) => Some(i + 1)
    decreases |s| - k
  {
    OccursAtShift(s, sep, k);
    if |s| >= k + |sep| && !OccursAt(s, sep, k) {
      IndexFromShift(s, sep, k + 1);
    }
  }

  /** strings.Split: the pieces of `s` between the non-overlapping occurrences
      of `sep`, found from the left. */
  function Split(s: string, sep: string): (parts: seq<string>)
    requires sep != []
    ensures |parts| >= 1
    decreases |s|
  {
    match IndexOf(s, sep)
    case None => [s]
    case Some(i) => [s[..i]] + Split(s[i + |sep|..], sep)
  }

  /** One step of Split: the piece before the first occurrence, then the
      split of what follows it. */
  lemma SplitStep(s: string, sep: string, i: nat)
    requires sep != [] && IndexOf(s, sep) == Some(i)
    ensures Split(s, sep) == [s[..i]] + Split(s[i + |sep|..], sep)
  {
  }

  /** One step of Split, with what follows the occurrence named. */
  lemma SplitAt(s: string, sep: string, i: nat, rest: string)
    requires sep != [] && IndexOf(s, sep) == Some(i) && rest == s[i + |sep|..]
    ensures Split(s, sep) == [s[..i]] + Split(rest, sep)
  {
    SplitStep(s, sep, i);
  }

  lemma HeadTail(x: string, p: seq<string>)
    ensures ([x] + p)[0] == x && ([x] + p)[1..] == p
  {
  }

  /** strings.Join: the pieces glued back together with `sep` between them. */
  function Join(parts: seq<string>, sep: string): string
    requires |parts| >= 1
  {
    if |parts| == 1 then parts[0] else parts[0] + sep + Join(parts[1..], sep)
  }

  /** Splitting and joining again gives back the original string. */
  lemma {:induction false} JoinSplit(s: string, sep: string)
    requires sep != []
    ensures Join(Split(s, sep), sep) == s
    decreases |s|
  {
    match IndexOf(s, sep)
    case None =>
      SplitNone(s, sep);
    case Some(i) =>
      var rest := s[i + |sep|..];
      SplitStep(s, sep, i);
      JoinSplit(rest, sep);
      JoinCons(s[..i], Split(rest, sep), sep);
      assert s[i..i + |sep|] == sep;
      assert s == s[..i] + s[i..i + |sep|] + rest;
  }

  /** No piece of a split contains the separator. */
  lemma {:induction false} SplitPiecesFree(s: string, sep: string)
    requires sep != []
    ensures forall k | 0 <= k < |Split(s, sep)| :: Free(Split(s, sep)[k], sep)
    decreases |s|
  {
    IndexOfFinds(s, sep);
    match IndexOf(s, sep)
    case None =>
      SplitNone(s, sep);
    case Some(i) =>
      SplitPiecesFree(s[i + |sep|..], sep);
      SplitStep(s, sep, i);
      var head := s[..i];
      forall j ensures !OccursAt(head, sep, j) {
        if OccursAt(head, sep, j) {
          assert s[j..j + |sep|] == head[j..j + |sep|];
          assert OccursAt(s, sep, j);
        }
      }
  }

  /** The first piece of a split is the prefix of `s` before the first
      occurrence of `sep`, or all of `s` when there is none. */
  lemma SplitFirstPiece(s: string, sep: string)
    requires sep != []
    ensures var first := Split(s, sep)[0];
      && first <= s
      && Free(first, sep)
      && (|first| == |s| || OccursAt(s, sep, |first|))
  {
    var r := IndexOf(s, sep);
    IndexOfFinds(s, sep);
    if r.Some? {
      var i := r.value;
      assert Split(s, sep)[0] == s[..i];
      forall j | 0 <= j && j + |sep| <= i ensures !OccursAt(s[..i], sep, j) {
        assert s[..i][j..j + |sep|] == s[j..j + |sep|];
        assert !OccursAt(s, sep, j);
      }
    }
  }

  /** The second piece of a split is the first piece of what follows the
      first occurrence of `sep`. */
  lemma SplitSecondPiece(s: string, sep: string, i: nat)
    requires sep != [] && OccursAt(s, sep, i)
    requires forall j | 0 <= j < i :: !OccursAt(s, sep, j)
    ensures |Split(s, sep)| >= 2 && Split(s, sep)[1] == Split(s[i + |sep|..], sep)[0]
  {
    IndexOfFirst(s, sep, i);
    var rest := Split(s[i + |sep|..], sep);
    assert Split(s, sep) == [s[..i]] + rest;
    assert ([s[..i]] + rest)[1] == rest[0];
  }

  /** The first occurrence is the one IndexOf finds. */
  lemma IndexOfFirst(s: string, sep: string, i: nat)
    requires sep != [] && OccursAt(s, sep, i)
    requires forall j | 0 <= j < i :: !OccursAt(s, sep, j)
    ensures IndexOf(s, sep) == Some(i)
  {
    var r := IndexOf(s, sep);
    IndexOfFinds(s, sep);
    assert !Free(s, sep);
    assert r.Some? && !(r.value < i) && !(i < r.value);
  }

  /** The last piece of a split. */
  function LastPiece(s: string, sep: string): string
    requires sep != []
  {
    var parts := Split(s, sep);
    parts[|parts| - 1]
  }

  /** The last piece of a split is the suffix of `s` after its last occurrence
      of `sep` (all of `s` when there is none). */
  lemma {:induction false} SplitLast(s: string, sep: string)
    requires sep != []
    ensures var last := LastPiece(s, sep);
      && |last| <= |s|
      && s[|s| - |last|..] == last
      && Free(last, sep)
      && (|last| < |s| ==> OccursAt(s, sep, |s| - |last| - |sep|))
    decreases |s|
  {
    match IndexOf(s, sep)
    case None =>
      IndexOfFinds(s, sep);
    case Some(i) =>
      var n := i + |sep|;
      SplitLast(s[n..], sep);
      LastPieceAfterFirst(s, sep, i);
      var last := LastPiece(s, sep);
      SuffixOfSuffix(s, n, last);
      if |last| == |s| - n {
        assert OccursAt(s, sep, i);
      } else {
        OccursAtInSuffix(s, sep, n, |s| - n - |last| - |sep|);
      }
  }

  /** Past the first occurrence of `sep`, the last piece is that of the rest. */
  lemma LastPieceAfterFirst(s: string, sep: string, i: nat)
    requires sep != [] && IndexOf(s, sep) == Some(i)
    ensures LastPiece(s, sep) == LastPiece(s[i + |sep|..], sep)
  {
    var parts := Split(s[i + |sep|..], sep);
    assert Split(s, sep) == [s[..i]] + parts;
  }

  /** A suffix of a suffix of `s` is a suffix of `s`. */
  lemma SuffixOfSuffix(s: string, n: nat, t: string)
    requires n <= |s| && |t| <= |s| - n && s[n..][|s| - n - |t|..] == t
    ensures s[|s| - |t|..] == t
  {
    assert s[n..][|s| - n - |t|..] == s[|s| - |t|..];
  }

  /** An occurrence in a suffix of `s` is an occurrence in `s`, shifted. */
  lemma OccursAtInSuffix(s: string, sep: string, n: nat, k: int)
    requires n <= |s|
    ensures OccursAt(s[n..], sep, k) ==> OccursAt(s, sep, n + k)
  {
    if OccursAt(s[n..], sep, k) {
      assert s[n..][k..k + |sep|] == s[n + k..n + k + |sep|];
    }
  }

  /** A string free of a one-character separator does not contain it. */
  lemma FreeOfChar(s: string, c: char)
    requires Free(s, [c])
    ensures c !in s
  {
    forall k | 0 <= k < |s| ensures s[k] != c {
      assert s[k..k + 1] == [s[k]];
      assert !OccursAt(s, [c], k);
    }
  }

  /** strings.ReplaceAll for a non-empty pattern: every non-overlapping
      occurrence of `pat`, found from the left, is replaced by `rep`. */
  function ReplaceAll(s: string, pat: string, rep: string): (r: string)
    requires pat != []
    ensures |rep| == |pat| ==> |r| == |s|
    ensures rep == pat ==> r == s
    decreases |s|
  {
    if |pat| <= |s| && s[..|pat|] == pat then
      assert s == s[..|pat|] + s[|pat|..];
      rep + ReplaceAll(s[|pat|..], pat, rep)
    else if s == [] then []
    else
      assert s == [s[0]] + s[1..];
      [s[0]] + ReplaceAll(s[1..], pat, rep)
  }

  /** ReplaceAll agrees with Go's own description of it: split around the
      pattern, then join with the replacement. */
  lemma {:induction false} ReplaceAllIsJoinOfSplit(s: string, pat: string, rep: string)
    requires pat != []
    ensures ReplaceAll(s, pat, rep) == Join(Split(s, pat), rep)
    decreases |s|
  {
    if |pat| <= |s| && s[..|pat|] == pat {
      assert OccursAt(s, pat, 0);
      assert IndexOf(s, pat) == Some(0);
      var rest := s[|pat|..];
      SplitStep(s, pat, 0);
      ReplaceAllIsJoinOfSplit(rest, pat, rep);
      JoinCons(s[..0], Split(rest, pat), rep);
      assert ReplaceAll(s, pat, rep) == rep + ReplaceAll(rest, pat, rep);
      assert s[..0] + rep == rep;
    } else if s == [] {
      SplitNone(s, pat);
    } else {
      assert ReplaceAll(s, pat, rep) == [s[0]] + ReplaceAll(s[1..], pat, rep);
      ReplaceAllIsJoinOfSplit(s[1..], pat, rep);
      SplitPastFirst(s, pat);
      JoinFirstCons(Split(s, pat), Split(s[1..], pat), s[0], rep);
    }
  }

  /** When `pat` does not occur at the front of `s`, splitting `s` is splitting
      `s[1..]` with the first character put back on the first piece. */
  lemma SplitPastFirst(s: string, pat: string)
    requires pat != [] && s != [] && !OccursAt(s, pat, 0)
    ensures Split(s, pat)[0] == [s[0]] + Split(s[1..], pat)[0]
    ensures Split(s, pat)[1..] == Split(s[1..], pat)[1..]
  {
    IndexOfPastFirst(s, pat);
    var t := s[1..];
    if IndexOf(s, pat).None? {
      SplitNone(s, pat);
      SplitNone(t, pat);
      assert s == [s[0]] + t;
      assert Split(s, pat)[1..] == [] == Split(t, pat)[1..];
    } else {
      var i := IndexOf(s, pat).value;
      var rest := s[i + |pat|..];
      assert t[i - 1 + |pat|..] == rest;
      SplitAt(s, pat, i, rest);
      SplitAt(t, pat, i - 1, rest);
      HeadTail(s[..i], Split(rest, pat));
      HeadTail(t[..i - 1], Split(rest, pat));
      assert s[..i] == [s[0]] + t[..i - 1];
    }
  }

  /** When `pat` does not occur at the front of `s`, the first occurrence in
      `s` is the first in `s[1..]`, one place further on. */
  lemma IndexOfPastFirst(s: string, pat: string)
    requires pat != [] && s != [] && !OccursAt(s, pat, 0)
    ensures IndexOf(s, pat).None? <==> IndexOf(s[1..], pat).None?
    ensures IndexOf(s, pat).Some? ==>
      IndexOf(s, pat).value >= 1 && IndexOf(s[1..], pat) == Some(IndexOf(s, pat).value - 1)
  {
    IndexFromShift(s, pat, 1);
    assert IndexOf(s, pat) == IndexFrom(s, pat, 1);
  }

  /** Without an occurrence of `sep`, Split gives back `s` whole. */
  lemma SplitNone(s: string, sep: string)
    requires sep != [] && IndexOf(s, sep) == None
    ensures Split(s, sep) == [s]
  {
  }

  /** Join of a piece put in front of others. */
  lemma JoinCons(p: string, q: seq<string>, sep: string)
    requires |q| >= 1
    ensures Join([p] + q, sep) == p + sep + Join(q, sep)
  {
    assert ([p] + q)[1..] == q;
  }

  lemma JoinFirstCons(p: seq<string>, q: seq<string>, c: char, sep: string)
    requires |p| == |q| >= 1 && p[0] == [c] + q[0] && p[1..] == q[1..]
    ensures Join(p, sep) == [c] + Join(q, sep)
  {
  }

  /** A string in which the pattern's first character never appears is left
      alone. */
  lemma {:induction false} ReplaceAllAbsent(s: string, pat: string, rep: string)
    requires pat != [] && pat[0] !in s
    ensures ReplaceAll(s, pat, rep) == s
    decreases |s|
  {
    if s != [] {
      assert s[0] != pat[0];
      ReplaceAllAbsent(s[1..], pat, rep);
    }
  }

  /** One step of ReplaceAll where no occurrence starts at the front. */
  lemma ReplaceAllSkip(s: string, pat: string, rep: string)
    requires pat != [] && s != [] && !OccursAt(s, pat, 0)
    ensures ReplaceAll(s, pat, rep) == [s[0]] + ReplaceAll(s[1..], pat, rep)
  {
  }

  /** A prefix without the pattern's first character passes through unchanged. */
  lemma {:induction false} ReplaceAllAbsentPrefix(a: string, b: string, pat: string, rep: string)
    requires pat != [] && pat[0] !in a
    ensures ReplaceAll(a + b, pat, rep) == a + ReplaceAll(b, pat, rep)
    decreases |a|
  {
    if a != [] {
      var s := a + b;
      if |pat| <= |s| {
        assert s[0..|pat|][0] == a[0] != pat[0];
      }
      assert !OccursAt(s, pat, 0);
      ReplaceAllSkip(s, pat, rep);
      assert s[1..] == a[1..] + b;
      ReplaceAllAbsentPrefix(a[1..], b, pat, rep);
      calc {
        ReplaceAll(s, pat, rep);
        [s[0]] + ReplaceAll(a[1..] + b, pat, rep);
        [a[0]] + (a[1..] + ReplaceAll(b, pat, rep));
        { assert a == [a[0]] + a[1..]; }
        a + ReplaceAll(b, pat, rep);
      }
    } else {
      assert a + b == b;
    }
  }

  /** An occurrence of the pattern at the front is replaced. */
  lemma ReplaceAllAtFront(b: string, pat: string, rep: string)
    requires pat != []
    ensures ReplaceAll(pat + b, pat, rep) == rep + ReplaceAll(b, pat, rep)
  {
    assert (pat + b)[..|pat|] == pat;
    assert (pat + b)[|pat|..] == b;
  }

  /** A suffix that the pattern cannot reach into is kept as it is: it holds
      no occurrence, and no occurrence can start before it and end inside it. */
  lemma {:induction false} ReplaceAllKeepsSuffix(a: string, t: string, pat: string, rep: string)
    requires pat != [] && pat[0] !in t
    requires t != [] ==> t[0] !in pat
    ensures ReplaceAll(a + t, pat, rep) == ReplaceAll(a, pat, rep) + t
    decreases |a|
  {
    if a == [] {
      assert a + t == t;
      ReplaceAllAbsent(t, pat, rep);
    } else if OccursAt(a, pat, 0) {
      ReplaceAllKeepsSuffix(a[|pat|..], t, pat, rep);
      KeepsSuffixAtFront(a, t, pat, rep);
    } else {
      ReplaceAllKeepsSuffix(a[1..], t, pat, rep);
      KeepsSuffixPastFront(a, t, pat, rep);
    }
  }

  /** The step of ReplaceAllKeepsSuffix where `a` starts with the pattern. */
  lemma KeepsSuffixAtFront(a: string, t: string, pat: string, rep: string)
    requires pat != [] && OccursAt(a, pat, 0)
    requires ReplaceAll(a[|pat|..] + t, pat, rep) == ReplaceAll(a[|pat|..], pat, rep) + t
    ensures ReplaceAll(a + t, pat, rep) == ReplaceAll(a, pat, rep) + t
  {
    var s := a + t;
    assert s[..|pat|] == a[..|pat|];
    assert s[|pat|..] == a[|pat|..] + t;
  }

  /** The step of ReplaceAllKeepsSuffix where `a` does not start with the
      pattern. */
  lemma KeepsSuffixPastFront(a: string, t: string, pat: string, rep: string)
    requires pat != [] && a != [] && !OccursAt(a, pat, 0)
    requires t != [] ==> t[0] !in pat
    requires ReplaceAll(a[1..] + t, pat, rep) == ReplaceAll(a[1..], pat, rep) + t
    ensures ReplaceAll(a + t, pat, rep) == ReplaceAll(a, pat, rep) + t
  {
    SkipAppended(a, t, pat, rep);
    ReplaceAllSkip(a, pat, rep);
    ConsAppend(a[0], ReplaceAll(a[1..], pat, rep), t);
  }

  /** Skipping the first character of `a + t`. */
  lemma SkipAppended(a: string, t: string, pat: string, rep: string)
    requires pat != [] && a != [] && !OccursAt(a, pat, 0)
    requires t != [] ==> t[0] !in pat
    ensures ReplaceAll(a + t, pat, rep) == [a[0]] + ReplaceAll(a[1..] + t, pat, rep)
  {
    var s := a + t;
    NoOccurrenceAcrossEnd(a, t, pat);
    ReplaceAllSkip(s, pat, rep);
    assert s[1..] == a[1..] + t;
  }

  lemma ConsAppend(c: char, r: string, t: string)
    ensures [c] + (r + t) == ([c] + r) + t
  {
  }

  /** An occurrence at the front of `a + t` would lie inside `a` or reach
      into `t`; the latter cannot happen when `t` starts with no character of
      the pattern. */
  lemma NoOccurrenceAcrossEnd(a: string, t: string, pat: string)
    requires pat != [] && a != [] && !OccursAt(a, pat, 0)
    requires t != [] ==> t[0] !in pat
    ensures !OccursAt(a + t, pat, 0)
  {
    var s := a + t;
    if |pat| <= |s| {
      if |pat| <= |a| {
        assert s[..|pat|] == a[..|pat|];
      } else {
        assert s[..|pat|][|a|] == t[0] && pat[|a|] in pat;
      }
    }
  }

  /** unicode.IsSpace: the characters strings.TrimSpace removes. */
  const Spaces: set<char> := {
    '\t', '\n', '\U{B}', '\U{C}', '\r', ' ', '\U{85}', '\U{A0}', '\U{1680}',
    '\U{2000}', '\U{2001}', '\U{2002}', '\U{2003}', '\U{2004}', '\U{2005}',
    '\U{2006}', '\U{2007}', '\U{2008}', '\U{2009}', '\U{200A}',
    '\U{2028}', '\U{2029}', '\U{202F}', '\U{205F}', '\U{3000}'}

  predicate IsSpace(c: char) {
    c in Spaces
  }

  /** `s` with its leading white space removed. */
  function TrimLeft(s: string): string
    decreases |s|
  {
    if s != [] && IsSpace(s[0]) then TrimLeft(s[1..]) else s
  }

  /** TrimLeft removes a run of white space from the front, and all of it. */
  lemma {:induction false} TrimLeftRemovesLeadingSpace(s: string)
    ensures var r := TrimLeft(s);
      && |r| <= |s| && r == s[|s| - |r|..]
      && (forall k | 0 <= k < |s| - |r| :: IsSpace(s[k]))
      && (r == [] || !IsSpace(r[0]))
    decreases |s|
  {
    if s != [] && IsSpace(s[0]) {
      TrimLeftRemovesLeadingSpace(s[1..]);
    }
  }

  /** `s` with its trailing white space removed. */
  function TrimRight(s: string): string
    decreases |s|
  {
    if s != [] && IsSpace(s[|s| - 1]) then TrimRight(s[..|s| - 1]) else s
  }

  /** TrimRight removes a run of white space from the back, and all of it. */
  lemma {:induction false} TrimRightRemovesTrailingSpace(s: string)
    ensures var r := TrimRight(s);
      && |r| <= |s| && r == s[..|r|]
      && (forall k | |r| <= k < |s| :: IsSpace(s[k]))
      && (r == [] || !IsSpace(r[|r| - 1]))
    decreases |s|
  {
    if s != [] && IsSpace(s[|s| - 1]) {
      TrimRightRemovesTrailingSpace(s[..|s| - 1]);
    }
  }

  /** strings.TrimSpace: `s` without leading and trailing white space. */
  function TrimSpace(s: string): (r: string)
    ensures |r| <= |s|
    ensures r == [] || (!IsSpace(r[0]) && !IsSpace(r[|r| - 1]))
  {
    var left := TrimLeft(s);
    TrimLeftRemovesLeadingSpace(s);
    TrimRightRemovesTrailingSpace(left);
    var r := TrimRight(left);
    assert r != [] ==> r[0] == left[0];
    r
  }

  /** TrimSpace leaves the middle of `s`: what it removes is white space, and
      what it keeps neither starts nor ends with white space. */
  lemma TrimSpaceKeepsMiddle(s: string)
    ensures var r := TrimSpace(s);
      && FramedBySpace(s, r, |s| - |TrimLeft(s)|)
      && (r == [] || (!IsSpace(r[0]) && !IsSpace(r[|r| - 1])))
  {
    var left := TrimLeft(s);
    TrimLeftRemovesLeadingSpace(s);
    TrimRightRemovesTrailingSpace(left);
    var r := TrimRight(left);
    var i := |s| - |left|;
    assert s[i..i + |r|] == left[..|r|];
  }

  /** `s` is `r`, starting at index `i`, with only white space around it. */
  ghost predicate FramedBySpace(s: string, r: string, i: int) {
    && 0 <= i && i + |r| <= |s| && s[i..i + |r|] == r
    && (forall k | 0 <= k < i :: IsSpace(s[k]))
    && (forall k | i + |r| <= k < |s| :: IsSpace(s[k]))
  }

  /** The character of a decimal digit. */
  function DigitChar(d: nat): char
    requires d < 10
  {
    ['0', '1', '2', '3', '4', '5', '6', '7', '8', '9'][d]
  }

  predicate IsDigit(c: char) {
    '0' <= c <= '9'
  }

  /** fmt.Sprintf("%d", n) for a non-negative integer. */
  function Decimal(n: nat): (d: string)
    ensures d != [] && forall k | 0 <= k < |d| :: IsDigit(d[k])
    ensures |d| > 1 ==> d[0] != '0'
  {
    if n < 10 then [DigitChar(n)] else Decimal(n / 10) + [DigitChar(n % 10)]
  }

  /** The number a string of decimal digits denotes. */
  function DecimalValue(d: string): nat
    requires forall k | 0 <= k < |d| :: IsDigit(d[k])
  {
    if d == [] then 0
    else
      assert IsDigit(d[|d| - 1]);
      DecimalValue(d[..|d| - 1]) * 10 + ((d[|d| - 1] as int) - ('0' as int))
  }

  /** Formatting with %d loses nothing: the digits denote the number. */
  lemma {:induction false} DecimalRoundTrip(n: nat)
    ensures DecimalValue(Decimal(n)) == n
  {
    if n >= 10 {
      DecimalRoundTrip(n / 10);
      var d := Decimal(n);
      assert d[..|d| - 1] == Decimal(n / 10);
    }
  }
}
