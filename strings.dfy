/** The JavaScript string operations the scripts rely on: `startsWith`,
    `endsWith`, `includes`, `split` on one character, `join`, `trimEnd`,
    a regular expression made only of literal characters and `.`, and the
    default ordering used by `Array.prototype.sort`. */
module Strings {

  /** `s.startsWith(p)` */
  predicate StartsWith(s: string, p: string) {
    |p| <= |s| && s[..|p|] == p
  }

  /** `s.endsWith(p)` */
  predicate EndsWith(s: string, p: string) {
    |p| <= |s| && s[|s| - |p|..] == p
  }

  /** `s.includes(sub)`: `sub` starts at some position of `s`. */
  predicate Contains(s: string, sub: string)
    decreases |s|
  {
    StartsWith(s, sub) || (s != [] && Contains(s[1..], sub))
  }

  lemma {:induction false} ContainsAt(s: string, sub: string, i: nat)
    requires i + |sub| <= |s| && s[i..i + |sub|] == sub
    ensures Contains(s, sub)
    decreases i
  {
    if i > 0 {
      assert s[1..][i - 1..i - 1 + |sub|] == s[i..i + |sub|];
      ContainsAt(s[1..], sub, i - 1);
    } else {
      assert s[..|sub|] == sub;
    }
  }

  /** A string shorter than `sub` cannot contain it. */
  lemma {:induction false} ShorterNotContains(s: string, sub: string)
    requires |s| < |sub|
    ensures !Contains(s, sub)
    decreases |s|
  {
    if s != [] {
      ShorterNotContains(s[1..], sub);
    }
  }

  lemma {:induction false} ContainsPrefixOf(s: string, t: string, sub: string)
    requires Contains(s, sub)
    ensures Contains(s + t, sub)
    decreases |s|
  {
    if StartsWith(s, sub) {
      assert (s + t)[..|sub|] == s[..|sub|];
    } else {
      assert (s + t)[1..] == s[1..] + t;
      ContainsPrefixOf(s[1..], t, sub);
    }
  }

  /** Line terminators: the characters a regular-expression `.` does not match. */
  predicate IsLineTerminator(ch: char) {
    ch == '\n' || ch == '\r' || ch == '\U{2028}' || ch == '\U{2029}'
  }

  /** Whether pattern character `pc` matches input character `ch`, when the
      pattern's only special character is `.`. */
  predicate DotCharMatches(pc: char, ch: char) {
    if pc == '.' then !IsLineTerminator(ch) else pc == ch
  }

  predicate DotMatchesAt(s: string, pattern: string)
    requires |pattern| <= |s|
  {
    forall i :: 0 <= i < |pattern| ==> DotCharMatches(pattern[i], s[i])
  }

  /** `s.match(pattern)` succeeds, for a `pattern` string whose only regular
      expression metacharacter is `.` (the string is turned into a RegExp). */
  predicate DotMatch(s: string, pattern: string)
    decreases |s|
  {
    (|pattern| <= |s| && DotMatchesAt(s, pattern)) || (s != [] && DotMatch(s[1..], pattern))
  }

  /** A literal occurrence is always a match: `.` matches itself. */
  lemma {:induction false} ContainsImpliesDotMatch(s: string, pattern: string)
    requires Contains(s, pattern)
    ensures DotMatch(s, pattern)
    decreases |s|
  {
    if StartsWith(s, pattern) {
      assert forall i :: 0 <= i < |pattern| ==> s[i] == s[..|pattern|][i];
    } else {
      ContainsImpliesDotMatch(s[1..], pattern);
    }
  }

  /** `s.split(c)` for a one-character separator: the pieces between the
      separators, including empty ones at either end. */
  function Split(s: string, c: char): (pieces: seq<string>)
    ensures |pieces| >= 1
    ensures forall p :: p in pieces ==> c !in p
    decreases |s|
  {
    if s == [] then [""]
    else if s[0] == c then [""] + Split(s[1..], c)
    else
      var rest := Split(s[1..], c);
      [[s[0]] + rest[0]] + rest[1..]
  }

  /** `xs.join(sep)` */
  function Join(xs: seq<string>, sep: string): string
    decreases |xs|
  {
    if xs == [] then ""
    else if |xs| == 1 then xs[0]
    else xs[0] + sep + Join(xs[1..], sep)
  }

  /** A join ends with the last piece. */
  lemma {:induction false} JoinEndsWith(xs: seq<string>, sep: string)
    requires xs != []
    ensures EndsWith(Join(xs, sep), xs[|xs| - 1])
    decreases |xs|
  {
    if |xs| > 1 {
      JoinEndsWith(xs[1..], sep);
      var j := Join(xs[1..], sep);
      var last := xs[|xs| - 1];
      assert (xs[0] + sep + j)[|xs[0] + sep + j| - |last|..] == j[|j| - |last|..];
    }
  }

  /** Joining two non-empty lists puts the separator between their joins. */
  lemma {:induction false} JoinAppend(xs: seq<string>, ys: seq<string>, sep: string)
    requires xs != [] && ys != []
    ensures Join(xs + ys, sep) == Join(xs, sep) + sep + Join(ys, sep)
    decreases |xs|
  {
    if |xs| > 1 {
      JoinAppend(xs[1..], ys, sep);
      assert (xs + ys)[1..] == xs[1..] + ys;
    } else {
      assert (xs + ys)[1..] == ys;
    }
  }

  /** A character in neither the pieces nor the separator is not in the join. */
  lemma {:induction false} JoinFree(xs: seq<string>, sep: string, c: char)
    requires c !in sep && forall x :: x in xs ==> c !in x
    ensures c !in Join(xs, sep)
    decreases |xs|
  {
    if |xs| > 1 {
      assert forall x :: x in xs[1..] ==> x in xs;
      JoinFree(xs[1..], sep, c);
      assert xs[0] in xs;
    } else if |xs| == 1 {
      assert xs[0] in xs;
    }
  }

  /** A piece made of two pieces around the separator joins as those two. */
  lemma JoinExpand(pre: seq<string>, a: string, b: string, post: seq<string>, sep: string)
    requires pre != []
    ensures Join(pre + [a + sep + b] + post, sep) == Join(pre + [a, b] + post, sep)
  {
    JoinAppend(pre, [a + sep + b], sep);
    JoinAppend(pre, [a, b], sep);
    JoinAppend([a], [b], sep);
    if post != [] {
      JoinAppend(pre + [a + sep + b], post, sep);
      JoinAppend(pre + [a, b], post, sep);
    } else {
      assert pre + [a + sep + b] + post == pre + [a + sep + b];
      assert pre + [a, b] + post == pre + [a, b];
    }
  }

  /** Joining the pieces of a split with the separator gives back the string. */
  lemma {:induction false} JoinSplit(s: string, c: char)
    ensures Join(Split(s, c), [c]) == s
    decreases |s|
  {
    if s != [] {
      var rest := Split(s[1..], c);
      JoinSplit(s[1..], c);
      if s[0] == c {
        assert Split(s, c) == [""] + rest;
      } else if |rest| > 1 {
        assert Split(s, c)[1..] == rest[1..];
      }
    }
  }

  lemma {:induction false} SplitNoSeparator(a: string, c: char)
    requires c !in a
    ensures Split(a, c) == [a]
    decreases |a|
  {
    if a != [] {
      SplitNoSeparator(a[1..], c);
      assert [a[0]] + a[1..] == a;
    }
  }

  lemma {:induction false} SplitAfterPiece(a: string, c: char, t: string)
    requires c !in a
    ensures Split(a + [c] + t, c) == [a] + Split(t, c)
    decreases |a|
  {
    var s := a + [c] + t;
    if a == [] {
      assert s[1..] == t;
    } else {
      assert s[1..] == a[1..] + [c] + t;
      SplitAfterPiece(a[1..], c, t);
      assert [a[0]] + a[1..] == a;
    }
  }

  /** Splitting a join gives back the pieces, when no piece holds the separator. */
  lemma {:induction false} SplitJoin(xs: seq<string>, c: char)
    requires |xs| >= 1
    requires forall x :: x in xs ==> c !in x
    ensures Split(Join(xs, [c]), c) == xs
    decreases |xs|
  {
    if |xs| == 1 {
      SplitNoSeparator(xs[0], c);
    } else {
      SplitJoin(xs[1..], c);
      SplitAfterPiece(xs[0], c, Join(xs[1..], [c]));
      assert [xs[0]] + xs[1..] == xs;
    }
  }

  /** Characters `String.prototype.trimEnd` removes: white space and line terminators. */
  predicate IsJsWhitespace(ch: char) {
    ch == '\t' || ch == '\U{B}' || ch == '\U{C}' || ch == ' ' || ch == '\U{A0}' || ch == '\U{FEFF}'
    || ch == '\U{1680}' || ('\U{2000}' <= ch <= '\U{200A}') || ch == '\U{202F}' || ch == '\U{205F}'
    || ch == '\U{3000}' || IsLineTerminator(ch)
  }

  /** `s.trimEnd()`: the longest prefix that does not end in white space;
      what it drops is white space only. */
  function TrimEnd(s: string): (r: string)
    ensures |r| <= |s| && r == s[..|r|]
    ensures forall i :: |r| <= i < |s| ==> IsJsWhitespace(s[i])
    ensures r == [] || !IsJsWhitespace(r[|r| - 1])
    decreases |s|
  {
    if s != [] && IsJsWhitespace(s[|s| - 1]) then TrimEnd(s[..|s| - 1]) else s
  }

  /** The ordering `Array.prototype.sort` uses by default: lexicographic on
      characters, a proper prefix first. */
  predicate Below(a: string, b: string)
    decreases |a|
  {
    if a == [] then b != []
    else if b == [] then false
    else if a[0] == b[0] then Below(a[1..], b[1..])
    else a[0] < b[0]
  }

  predicate AtMost(a: string, b: string) {
    a == b || Below(a, b)
  }

  lemma {:induction false} BelowIrreflexive(a: string)
    ensures !Below(a, a)
    decreases |a|
  {
    if a != [] {
      BelowIrreflexive(a[1..]);
    }
  }

  lemma {:induction false} BelowTransitive(a: string, b: string, c: string)
    requires Below(a, b) && Below(b, c)
    ensures Below(a, c)
    decreases |a|
  {
    if a != [] && a[0] == b[0] && b[0] == c[0] {
      BelowTransitive(a[1..], b[1..], c[1..]);
    }
  }

  lemma {:induction false} BelowTotal(a: string, b: string)
    requires a != b
    ensures Below(a, b) || Below(b, a)
    decreases |a|
  {
    if a != [] && b != [] && a[0] == b[0] {
      assert a == [a[0]] + a[1..] && b == [b[0]] + b[1..];
      BelowTotal(a[1..], b[1..]);
    }
  }

  lemma BelowAsymmetric(a: string, b: string)
    requires Below(a, b)
    ensures !Below(b, a)
  {
    if Below(b, a) {
      BelowTransitive(a, b, a);
      BelowIrreflexive(a);
    }
  }

  predicate Sorted(xs: seq<string>) {
    forall i, j :: 0 <= i < j < |xs| ==> AtMost(xs[i], xs[j])
  }

  function Insert(x: string, xs: seq<string>): (r: seq<string>)
    requires Sorted(xs)
    ensures Sorted(r)
    ensures multiset(r) == multiset(xs) + multiset{x}
    decreases |xs|
  {
    if xs == [] then [x]
    else if AtMost(x, xs[0]) then
      InsertFrontSorted(x, xs);
      [x] + xs
    else
      var tail := Insert(x, xs[1..]);
      assert xs == [xs[0]] + xs[1..];
      InsertBehindSorted(x, xs, tail);
      [xs[0]] + tail
  }

  lemma InsertFrontSorted(x: string, xs: seq<string>)
    requires Sorted(xs) && xs != [] && AtMost(x, xs[0])
    ensures Sorted([x] + xs)
  {
    forall j | 0 < j < |xs|
      ensures AtMost(x, xs[j])
    {
      if x != xs[0] && xs[0] != xs[j] {
        BelowTransitive(x, xs[0], xs[j]);
      }
    }
  }

  lemma InsertBehindSorted(x: string, xs: seq<string>, tail: seq<string>)
    requires Sorted(xs) && xs != [] && !AtMost(x, xs[0])
    requires Sorted(tail) && multiset(tail) == multiset(xs[1..]) + multiset{x}
    ensures Sorted([xs[0]] + tail)
  {
    BelowTotal(x, xs[0]);
    forall j | 0 <= j < |tail|
      ensures AtMost(xs[0], tail[j])
    {
      assert tail[j] in multiset(tail);
      if tail[j] != x {
        assert tail[j] in multiset(xs[1..]);
        var k :| 0 <= k < |xs[1..]| && xs[1..][k] == tail[j];
        assert xs[k + 1] == tail[j];
      }
    }
  }

  /** `[...xs].sort()` with the default comparison: an ordered permutation. */
  function Sort(xs: seq<string>): (r: seq<string>)
    ensures Sorted(r)
    ensures multiset(r) == multiset(xs)
    decreases |xs|
  {
    if xs == [] then []
    else
      assert xs == [xs[0]] + xs[1..];
      Insert(xs[0], Sort(xs[1..]))
  }

  predicate Distinct<T(==)>(xs: seq<T>) {
    forall i, j :: 0 <= i < j < |xs| ==> xs[i] != xs[j]
  }

  /** Sorting a duplicate-free list gives a strictly increasing list with the same elements. */
  lemma SortDistinct(xs: seq<string>)
    requires Distinct(xs)
    ensures (set x | x in Sort(xs)) == (set x | x in xs)
    ensures forall i, j :: 0 <= i < j < |Sort(xs)| ==> Below(Sort(xs)[i], Sort(xs)[j])
  {
    var r := Sort(xs);
    forall x
      ensures x in r <==> x in xs
    {
      assert x in r <==> x in multiset(r);
      assert x in xs <==> x in multiset(xs);
    }
    forall i, j | 0 <= i < j < |r|
      ensures Below(r[i], r[j])
    {
      if r[i] == r[j] {
        DistinctMultiplicity(xs, r[i]);
        TwoCopies(r, i, j);
      }
    }
  }

  lemma TwoCopies(r: seq<string>, i: nat, j: nat)
    requires i < j < |r| && r[i] == r[j]
    ensures multiset(r)[r[i]] >= 2
  {
    assert r == r[..j] + r[j..];
    assert r[i] in r[..j];
    assert r[j] in r[j..];
    assert multiset(r) == multiset(r[..j]) + multiset(r[j..]);
  }

  lemma {:induction false} DistinctMultiplicity(xs: seq<string>, x: string)
    requires Distinct(xs)
    ensures multiset(xs)[x] <= 1
    decreases |xs|
  {
    if xs != [] {
      assert xs == [xs[0]] + xs[1..];
      DistinctMultiplicity(xs[1..], x);
      if xs[0] == x {
        assert x !in xs[1..];
      }
    }
  }
}
