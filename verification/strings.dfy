/**
 The few functions of Go's `strings` package that the analyzer's verdicts rest on:
 `Index`, `Contains`, `HasPrefix`, `Split`, `Join` and `TrimSpace`, over `string`
 (a sequence of characters). Each executable function is tied to a ghost reference
 definition (`MatchAt`, `Occurs`, `Concat`, `AllSpace`).
 */
module Strings {

  /* ---------------------------------------------------------------------------
     Reference definitions
     --------------------------------------------------------------------------- */

  /** `sub` occurs in `s` starting at position `i`. */
  ghost predicate MatchAt(s: string, sub: string, i: int) {
    0 <= i && i + |sub| <= |s| && s[i..i + |sub|] == sub
  }

  /** `sub` occurs somewhere in `s` (the empty string occurs in every string). */
  ghost predicate Occurs(s: string, sub: string) {
    exists i :: MatchAt(s, sub, i)
  }

  /** `i` is the leftmost occurrence of `sub` in `s`. */
  ghost predicate FirstAt(s: string, sub: string, i: int) {
    MatchAt(s, sub, i) && forall j :: 0 <= j < i ==> !MatchAt(s, sub, j)
  }

  /** The first `n` characters of `s` are the text before the leftmost `sep`,
      or all of `s` when `sep` does not occur. */
  ghost predicate Delimits(s: string, sep: string, n: int) {
    && 0 <= n <= |s|
    && (forall j :: 0 <= j < n ==> !MatchAt(s, sep, j))
    && (n == |s| || MatchAt(s, sep, n))
  }

  /** `parts` are the pieces of `s` split at its leftmost, non-overlapping
      occurrences of `sep`: the first piece is the text before the leftmost `sep`
      (all of `s` when there is none), and the remaining pieces split what
      follows that `sep` in the same way. */
  ghost predicate Pieces(s: string, sep: string, parts: seq<string>)
    decreases |parts|
  {
    && |parts| >= 1
    && Delimits(s, sep, |parts[0]|)
    && parts[0] == s[..|parts[0]|]
    && if |parts[0]| == |s| then |parts| == 1
       else |parts[0]| + |sep| <= |s| && Pieces(s[|parts[0]| + |sep|..], sep, parts[1..])
  }

  /** The pieces glued together with nothing between them. */
  ghost function Concat(parts: seq<string>): string {
    if |parts| == 0 then "" else parts[0] + Concat(parts[1..])
  }

  /** The leftmost occurrence is unique. */
  lemma FirstAtUnique(s: string, sub: string, i: int, j: int)
    requires FirstAt(s, sub, i) && FirstAt(s, sub, j)
    ensures i == j
  {
  }

  /** The delimited prefix is unique. */
  lemma DelimitsUnique(s: string, sep: string, n: int, m: int)
    requires |sep| > 0
    requires Delimits(s, sep, n) && Delimits(s, sep, m)
    ensures n == m
  {
  }

  /** A string has only one list of pieces for a given non-empty separator. */
  lemma {:induction false} PiecesUnique(s: string, sep: string, p: seq<string>, q: seq<string>)
    requires |sep| > 0
    requires Pieces(s, sep, p) && Pieces(s, sep, q)
    ensures p == q
    decreases |p|
  {
    DelimitsUnique(s, sep, |p[0]|, |q[0]|);
    if |p[0]| < |s| {
      PiecesUnique(s[|p[0]| + |sep|..], sep, p[1..], q[1..]);
      assert p == [p[0]] + p[1..] && q == [q[0]] + q[1..];
    }
  }

  /** Dropping the first character shifts every occurrence one place left. */
  lemma ShiftMatch(s: string, sub: string)
    requires |s| > 0
    ensures forall j :: MatchAt(s[1..], sub, j) ==> MatchAt(s, sub, j + 1)
    ensures forall j :: 1 <= j && MatchAt(s, sub, j) ==> MatchAt(s[1..], sub, j - 1)
  {
    forall j | MatchAt(s[1..], sub, j)
      ensures MatchAt(s, sub, j + 1)
    {
      assert s[1..][j..j + |sub|] == s[j + 1..j + 1 + |sub|];
    }
    forall j | 1 <= j && MatchAt(s, sub, j)
      ensures MatchAt(s[1..], sub, j - 1)
    {
      assert s[1..][j - 1..j - 1 + |sub|] == s[j..j + |sub|];
    }
  }

  /** An occurrence inside a prefix is an occurrence in the whole string. */
  lemma PrefixMatch(s: string, sub: string, n: nat)
    requires n <= |s|
    ensures forall j :: MatchAt(s[..n], sub, j) ==> MatchAt(s, sub, j)
  {
    forall j | MatchAt(s[..n], sub, j)
      ensures MatchAt(s, sub, j)
    {
      assert s[..n][j..j + |sub|] == s[j..j + |sub|];
    }
  }

  /* ---------------------------------------------------------------------------
     Go's strings functions
     --------------------------------------------------------------------------- */

  /** strings.HasPrefix: `s` begins with `prefix`. */
  function HasPrefix(s: string, prefix: string): (r: bool)
    ensures r <==> MatchAt(s, prefix, 0)
  {
    |prefix| <= |s| && s[..|prefix|] == prefix
  }

  /** strings.Index: the position of the leftmost occurrence of `sub`, or -1. */
  function Index(s: string, sub: string): (r: int)
    ensures r == -1 || FirstAt(s, sub, r)
    ensures r == -1 <==> !Occurs(s, sub)
    decreases |s|
  {
    if HasPrefix(s, sub) then 0
    else if |s| <= |sub| then -1
    else
      ShiftMatch(s, sub);
      var k := Index(s[1..], sub);
      if k == -1 then -1 else k + 1
  }

  /** strings.Contains: `sub` occurs in `s`; true for every `s` when `sub` is empty. */
  function Contains(s: string, sub: string): (r: bool)
    ensures r <==> Occurs(s, sub)
    ensures sub == "" ==> r
  {
    assert MatchAt(s, "", 0);
    Index(s, sub) >= 0
  }

  /** strings.Join: the parts with `sep` between neighbours. */
  function Join(parts: seq<string>, sep: string): (r: string)
    ensures sep == "" ==> r == Concat(parts)
    ensures |parts| == 1 ==> r == parts[0]
  {
    if |parts| == 0 then ""
    else if |parts| == 1 then
      assert Concat(parts) == parts[0] + Concat([]);
      parts[0]
    else
      var tail := Join(parts[1..], sep);
      assert sep == "" ==> parts[0] + sep + tail == parts[0] + tail;
      parts[0] + sep + tail
  }

  /** strings.Split for a non-empty separator: the text between consecutive
      leftmost, non-overlapping occurrences of `sep`. */
  function Split(s: string, sep: string): (parts: seq<string>)
    requires |sep| > 0
    ensures |parts| >= 1
    ensures |parts| >= 2 <==> Occurs(s, sep)
    ensures Delimits(s, sep, |parts[0]|) && parts[0] == s[..|parts[0]|]
    ensures Pieces(s, sep, parts)
    ensures forall k :: 0 <= k < |parts| ==> !Occurs(parts[k], sep)
    ensures Join(parts, sep) == s
    decreases |s|
  {
    var i := Index(s, sep);
    if i == -1 then [s]
    else
      var rest := Split(s[i + |sep|..], sep);
      var parts := [s[..i]] + rest;
      PrefixMatch(s, sep, i);
      assert parts[1..] == rest;
      assert s == s[..i] + sep + s[i + |sep|..] by {
        assert s == s[..i] + s[i..i + |sep|] + s[i + |sep|..];
      }
      parts
  }

  /** Occurrences are taken leftmost and never overlap: "baaaaa" split on "aa"
      is "b", then the empty text between the first two "aa", then "a". */
  lemma SplitIsLeftmostNonOverlapping()
    ensures Split("baaaaa", "aa") == ["b", "", "a"]
  {
    var s, sep := "baaaaa", "aa";
    assert Pieces("a", sep, ["a"]) by {
      assert !MatchAt("a", sep, 0);
    }
    assert Pieces("aaa", sep, ["", "a"]) by {
      assert MatchAt("aaa", sep, 0);
      assert "aaa"[2..] == "a";
    }
    assert Pieces(s, sep, ["b", "", "a"]) by {
      assert s[0..2] == "ba" && s[1..3] == "aa";
      assert s[3..] == "aaa";
      assert ["b", "", "a"][1..] == ["", "a"];
    }
    PiecesUnique(s, sep, Split(s, sep), ["b", "", "a"]);
  }

  /** Every occurrence in one part of a concatenation is one in the whole. */
  lemma OccursInAppend(a: string, b: string, sub: string)
    ensures Occurs(a, sub) ==> Occurs(a + b, sub)
    ensures Occurs(b, sub) ==> Occurs(a + b, sub)
  {
    if Occurs(a, sub) {
      var i :| MatchAt(a, sub, i);
      assert (a + b)[i..i + |sub|] == a[i..i + |sub|];
      assert MatchAt(a + b, sub, i);
    }
    if Occurs(b, sub) {
      var i :| MatchAt(b, sub, i);
      assert (a + b)[|a| + i..|a| + i + |sub|] == b[i..i + |sub|];
      assert MatchAt(a + b, sub, |a| + i);
    }
  }

  /** Whatever occurs in one of the parts occurs in their concatenation. */
  lemma {:induction false} OccursInConcat(parts: seq<string>, k: nat, sub: string)
    requires k < |parts| && Occurs(parts[k], sub)
    ensures Occurs(Concat(parts), sub)
    decreases |parts|
  {
    OccursInAppend(parts[0], Concat(parts[1..]), sub);
    if k > 0 {
      OccursInConcat(parts[1..], k - 1, sub);
    }
  }

  /** Nothing occurs in the empty string except the empty string. */
  lemma NothingOccursInEmpty(sub: string)
    ensures Occurs("", sub) <==> sub == ""
  {
    if sub == "" {
      assert MatchAt("", sub, 0);
    }
  }

  /* ---------------------------------------------------------------------------
     strings.TrimSpace, restricted to ASCII white space
     --------------------------------------------------------------------------- */

  /** ASCII white space: space, tab, line feed, vertical tab, form feed, carriage return. */
  predicate IsSpace(c: char) {
    c == ' ' || '\t' <= c <= '\r'
  }

  ghost predicate AllSpace(s: string) {
    forall k :: 0 <= k < |s| ==> IsSpace(s[k])
  }

  /** `s` is `r` with nothing but white space added on either side. */
  ghost predicate PaddedBy(s: string, r: string) {
    exists i :: 0 <= i <= |s| - |r| && r == s[i..i + |r|]
                && AllSpace(s[..i]) && AllSpace(s[i + |r|..])
  }

  /** `s` neither starts nor ends with white space. */
  ghost predicate Trimmed(s: string) {
    s == [] || (!IsSpace(s[0]) && !IsSpace(s[|s| - 1]))
  }

  /** strings.TrimLeftFunc(s, IsSpace): the suffix after the leading white space. */
  function TrimLeft(s: string): (r: string)
    ensures |r| <= |s| && r == s[|s| - |r|..]
    ensures AllSpace(s[..|s| - |r|])
    ensures r == [] || !IsSpace(r[0])
  {
    if |s| > 0 && IsSpace(s[0]) then
      var r := TrimLeft(s[1..]);
      assert s[..|s| - |r|] == [s[0]] + s[1..][..|s| - 1 - |r|];
      r
    else s
  }

  /** strings.TrimRightFunc(s, IsSpace): the prefix before the trailing white space. */
  function TrimRight(s: string): (r: string)
    ensures |r| <= |s| && r == s[..|r|]
    ensures AllSpace(s[|r|..])
    ensures r == [] || !IsSpace(r[|r| - 1])
  {
    if |s| > 0 && IsSpace(s[|s| - 1]) then
      var r := TrimRight(s[..|s| - 1]);
      assert s[|r|..] == s[..|s| - 1][|r|..] + [s[|s| - 1]];
      r
    else s
  }

  /** strings.TrimSpace: `s` without its leading and trailing white space. */
  function TrimSpace(s: string): (r: string)
    ensures Trimmed(r)
    ensures PaddedBy(s, r)
  {
    var left := TrimLeft(s);
    var r := TrimRight(left);
    TrimSpaceShape(s, left, r);
    r
  }

  /** A suffix after leading white space, cut before trailing white space, is
      trimmed and padded only by white space. */
  lemma TrimSpaceShape(s: string, left: string, r: string)
    requires |left| <= |s| && left == s[|s| - |left|..] && AllSpace(s[..|s| - |left|])
    requires left == [] || !IsSpace(left[0])
    requires |r| <= |left| && r == left[..|r|] && AllSpace(left[|r|..])
    requires r == [] || !IsSpace(r[|r| - 1])
    ensures Trimmed(r) && PaddedBy(s, r)
  {
    var i := |s| - |left|;
    assert r == s[i..i + |r|];
    assert s[i + |r|..] == left[|r|..];
    assert AllSpace(s[..i]) && AllSpace(s[i + |r|..]);
    assert r != [] ==> r[0] == left[0];
  }

  lemma {:induction false} TrimLeftPadding(ws: string, t: string)
    requires AllSpace(ws)
    requires t == [] || !IsSpace(t[0])
    ensures TrimLeft(ws + t) == t
    decreases |ws|
  {
    if |ws| > 0 {
      assert (ws + t)[1..] == ws[1..] + t;
      TrimLeftPadding(ws[1..], t);
    } else {
      assert ws + t == t;
    }
  }

  lemma {:induction false} TrimRightPadding(t: string, ws: string)
    requires AllSpace(ws)
    requires t == [] || !IsSpace(t[|t| - 1])
    ensures TrimRight(t + ws) == t
    decreases |ws|
  {
    if |ws| > 0 {
      assert (t + ws)[..|t + ws| - 1] == t + ws[..|ws| - 1];
      TrimRightPadding(t, ws[..|ws| - 1]);
    } else {
      assert t + ws == t;
    }
  }

  /** TrimSpace removes exactly the white-space padding around a trimmed string. */
  lemma TrimSpacePadding(ws1: string, u: string, ws2: string)
    requires AllSpace(ws1) && AllSpace(ws2) && Trimmed(u)
    ensures TrimSpace(ws1 + u + ws2) == u
  {
    if u == [] {
      assert ws1 + u + ws2 == ws1 + ws2 + "";
      assert AllSpace(ws1 + ws2);
      TrimLeftPadding(ws1 + ws2, "");
      assert TrimLeft(ws1 + u + ws2) == "";
    } else {
      assert ws1 + u + ws2 == ws1 + (u + ws2);
      TrimLeftPadding(ws1, u + ws2);
      TrimRightPadding(u, ws2);
    }
  }

  /** A string with no white space at either end is left as it is. */
  lemma TrimSpaceKeepsTrimmed(u: string)
    requires Trimmed(u)
    ensures TrimSpace(u) == u
  {
    assert TrimLeft(u) == u;
    assert TrimRight(u) == u;
  }

  /** Trimming twice is trimming once. */
  lemma TrimSpaceIdempotent(s: string)
    ensures TrimSpace(TrimSpace(s)) == TrimSpace(s)
  {
    TrimSpaceKeepsTrimmed(TrimSpace(s));
  }
}
