/**
 * The handful of Python string operations the core relies on: str.strip,
 * str.startswith, the substring test `t in s`, str.split on one character
 * and str.join, plus maximal character runs, which is what the greedy
 * character classes of the source's regular expressions consume.
 */
module Strings {
  import opened Wrappers

  /** Python's str.isspace on one character (the Unicode whitespace set). */
  predicate IsWhitespace(c: char) {
    || c == ' '
    || ('\U{0009}' <= c <= '\U{000D}')
    || ('\U{001C}' <= c <= '\U{001F}')
    || c == '\U{0085}' || c == '\U{00A0}' || c == '\U{1680}'
    || ('\U{2000}' <= c <= '\U{200A}')
    || c == '\U{2028}' || c == '\U{2029}' || c == '\U{202F}'
    || c == '\U{205F}' || c == '\U{3000}'
  }

  predicate IsDigit(c: char) { '0' <= c <= '9' }

  predicate IsAsciiLetter(c: char) { ('a' <= c <= 'z') || ('A' <= c <= 'Z') }

  predicate IsLowerLetter(c: char) { 'a' <= c <= 'z' }

  predicate AllWhitespace(s: string) {
    forall i :: 0 <= i < |s| ==> IsWhitespace(s[i])
  }

  predicate AllDigits(s: string) {
    forall i :: 0 <= i < |s| ==> IsDigit(s[i])
  }

  /** Neither end of `s` is whitespace. */
  predicate IsStripped(s: string) {
    s == [] || (!IsWhitespace(s[0]) && !IsWhitespace(s[|s| - 1]))
  }

  /** The end of the run of positions before `j`, down to `lo`, that hold whitespace. */
  function TrailStart(s: string, lo: nat, j: nat): (k: nat)
    requires lo <= j <= |s|
    decreases j
    ensures lo <= k <= j
    ensures forall m :: k <= m < j ==> IsWhitespace(s[m])
    ensures k == lo || !IsWhitespace(s[k - 1])
  {
    if j > lo && IsWhitespace(s[j - 1]) then TrailStart(s, lo, j - 1) else j
  }

  /** `r` is `s[i..]` cut short, with only whitespace before and after it. */
  predicate IsMiddle(s: string, i: nat, r: string) {
    i + |r| <= |s| && r == s[i..i + |r|]
    && (forall k :: 0 <= k < i ==> IsWhitespace(s[k]))
    && (forall k :: i + |r| <= k < |s| ==> IsWhitespace(s[k]))
  }

  /** str.strip(): the middle of `s` once the whitespace at both ends is cut. */
  function Strip(s: string): (r: string)
    ensures IsStripped(r)
    ensures exists i: nat :: IsMiddle(s, i, r)
  {
    var i := RunEnd(s, 0, IsWhitespace);
    var j := TrailStart(s, i, |s|);
    assert IsMiddle(s, i, s[i..j]);
    s[i..j]
  }

  /** Stripping changes nothing on a string that has no whitespace at either end. */
  lemma StripOfStripped(s: string)
    requires IsStripped(s)
    ensures Strip(s) == s
  {
  }

  predicate StartsWith(s: string, p: string) {
    |p| <= |s| && s[..|p|] == p
  }

  predicate OccursAt(s: string, t: string, i: nat) {
    i + |t| <= |s| && s[i..i + |t|] == t
  }

  /** An occurrence of `t` followed by `s[i + |t|..j]` is an occurrence of both together. */
  lemma OccursExtended(s: string, t: string, i: nat, j: nat)
    requires OccursAt(s, t, i) && i + |t| <= j <= |s|
    ensures OccursAt(s, t + s[i + |t|..j], i)
  {
    SliceSplit(s, i, i + |t|, j);
  }

  /** Python's `t in s` for strings. */
  predicate Contains(s: string, t: string) {
    exists i: nat :: i <= |s| && OccursAt(s, t, i)
  }

  /** The first position at or after `i` where `t` occurs in `s`. */
  function IndexFrom(s: string, t: string, i: nat): (r: Option<nat>)
    decreases |s| - i
    ensures r.Some? ==> i <= r.value && OccursAt(s, t, r.value)
    ensures r.Some? ==> forall j: nat :: i <= j < r.value ==> !OccursAt(s, t, j)
    ensures r.None? ==> forall j: nat :: i <= j ==> !OccursAt(s, t, j)
  {
    if i + |t| > |s| then None
    else if s[i..i + |t|] == t then Some(i)
    else IndexFrom(s, t, i + 1)
  }

  /** The leftmost occurrence of `t` in `s` (str.find, or the start of `re.search`). */
  function IndexOf(s: string, t: string): (r: Option<nat>)
    ensures r.Some? <==> Contains(s, t)
    ensures r.Some? ==> OccursAt(s, t, r.value)
                        && forall j: nat :: j < r.value ==> !OccursAt(s, t, j)
  {
    IndexFrom(s, t, 0)
  }

  /** An occurrence inside a prefix is an occurrence in the whole string. */
  lemma OccursInPrefix(s: string, k: nat, t: string, j: nat)
    requires k <= |s| && OccursAt(s[..k], t, j)
    ensures OccursAt(s, t, j)
  {
    assert s[..k][j..j + |t|] == s[j..j + |t|];
  }

  /** `s.split(t)[0]`: everything before the first occurrence of `t`. */
  function BeforeFirst(s: string, t: string): (r: string)
    requires t != []
    ensures StartsWith(s, r)
    ensures !Contains(r, t)
    ensures |r| < |s| ==> OccursAt(s, t, |r|)
    ensures forall j: nat :: j < |r| ==> !OccursAt(s, t, j)
    ensures !Contains(s, t) ==> r == s
  {
    match IndexOf(s, t)
    case None => s
    case Some(i) =>
      var r := s[..i];
      assert !Contains(r, t) by {
        forall j: nat | j <= |r| && OccursAt(r, t, j) ensures false {
          OccursInPrefix(s, i, t, j);
        }
      }
      r
  }

  /** The end of the maximal run of characters satisfying `p` that starts at `i`. */
  function RunEnd(s: string, i: nat, p: char -> bool): (j: nat)
    requires i <= |s|
    decreases |s| - i
    ensures i <= j <= |s|
    ensures forall k :: i <= k < j ==> p(s[k])
    ensures j == |s| || !p(s[j])
  {
    if i < |s| && p(s[i]) then RunEnd(s, i + 1, p) else i
  }

  /** Python's str.split with a one-character separator (never an empty list). */
  function Split(s: string, sep: char): (pieces: seq<string>)
    ensures |pieces| >= 1
    ensures forall p :: p in pieces ==> sep !in p
  {
    if s == [] then [[]]
    else
      var rest := Split(s[1..], sep);
      if s[0] == sep then [[]] + rest
      else [[s[0]] + rest[0]] + rest[1..]
  }

  /** Python's `sep.join(pieces)`. */
  function Join(pieces: seq<string>, sep: string): string
  {
    if |pieces| == 0 then []
    else if |pieces| == 1 then pieces[0]
    else pieces[0] + sep + Join(pieces[1..], sep)
  }

  lemma JoinConsHead(x: char, head: string, rest: seq<string>, sep: string)
    ensures Join([[x] + head] + rest, sep) == [x] + Join([head] + rest, sep)
  {
    var ps := [[x] + head] + rest;
    var qs := [head] + rest;
    assert ps[1..] == rest && qs[1..] == rest;
  }

  /** Joining the pieces of a split with the separator gives back the string. */
  lemma {:induction false} JoinSplit(s: string, sep: char)
    ensures Join(Split(s, sep), [sep]) == s
  {
    if s != [] {
      var rest := Split(s[1..], sep);
      JoinSplit(s[1..], sep);
      if s[0] == sep {
        var ps := [[]] + rest;
        assert ps[1..] == rest;
      } else {
        assert rest == [rest[0]] + rest[1..];
        JoinConsHead(s[0], rest[0], rest[1..], [sep]);
      }
    }
  }

  lemma {:induction false} SplitWithout(p: string, sep: char)
    requires sep !in p
    ensures Split(p, sep) == [p]
  {
    if p != [] {
      assert sep !in p[1..];
      SplitWithout(p[1..], sep);
      assert [p[0]] + p[1..] == p;
    }
  }

  lemma {:induction false} SplitAfterPiece(p: string, sep: char, rest: string)
    requires sep !in p
    ensures Split(p + [sep] + rest, sep) == [p] + Split(rest, sep)
  {
    if p == [] {
      assert p + [sep] + rest == [sep] + rest;
    } else {
      var s := p + [sep] + rest;
      assert s[1..] == p[1..] + [sep] + rest;
      SplitAfterPiece(p[1..], sep, rest);
      assert [p[0]] + p[1..] == p;
    }
  }

  /** Splitting a join of separator-free pieces gives back the pieces. */
  lemma {:induction false} SplitJoin(pieces: seq<string>, sep: char)
    requires |pieces| >= 1
    requires forall p :: p in pieces ==> sep !in p
    ensures Split(Join(pieces, [sep]), sep) == pieces
  {
    if |pieces| == 1 {
      SplitWithout(pieces[0], sep);
    } else {
      SplitJoin(pieces[1..], sep);
      SplitAfterPiece(pieces[0], sep, Join(pieces[1..], [sep]));
      assert [pieces[0]] + pieces[1..] == pieces;
    }
  }

  predicate EndsWith(s: string, p: string) {
    |p| <= |s| && s[|s| - |p|..] == p
  }

  /** The `k`-th character from the end of a suffix is that of the whole string. */
  lemma EndsWithAt(s: string, p: string, k: nat)
    requires EndsWith(s, p) && 0 < k <= |p|
    ensures s[|s| - k] == p[|p| - k]
  {
    assert s[|s| - k] == s[|s| - |p|..][|p| - k];
  }

  /** What a string grown by repeated `+=` of `pieces` ends up holding. */
  function Concat(pieces: seq<string>): string {
    if pieces == [] then [] else Concat(pieces[..|pieces| - 1]) + pieces[|pieces| - 1]
  }

  lemma {:induction false} ConcatAppend(a: seq<string>, b: seq<string>)
    ensures Concat(a + b) == Concat(a) + Concat(b)
    decreases |b|
  {
    if b == [] {
      assert a + b == a;
    } else {
      var b' := b[..|b| - 1];
      var ab := a + b;
      assert ab[..|ab| - 1] == a + b';
      assert ab[|ab| - 1] == b[|b| - 1];
      assert Concat(ab) == Concat(a + b') + b[|b| - 1];
      ConcatAppend(a, b');
      assert Concat(b) == Concat(b') + b[|b| - 1];
    }
  }

  /** Each piece sits in the concatenation right after the pieces before it. */
  lemma ConcatAt(pieces: seq<string>, i: nat)
    requires i < |pieces|
    ensures Concat(pieces) == Concat(pieces[..i]) + pieces[i] + Concat(pieces[i + 1..])
  {
    var front := pieces[..i + 1];
    var back := pieces[i + 1..];
    SplitSeq(pieces, i + 1);
    ConcatAppend(front, back);
    ConcatLast(front);
    assert front[..i] == pieces[..i];
  }

  lemma SplitSeq<T>(s: seq<T>, k: nat)
    requires k <= |s|
    ensures s == s[..k] + s[k..]
  {
  }

  lemma SliceSplit<T>(s: seq<T>, a: nat, b: nat, c: nat)
    requires a <= b <= c <= |s|
    ensures s[a..c] == s[a..b] + s[b..c]
  {
  }

  lemma ConcatLast(pieces: seq<string>)
    requires pieces != []
    ensures Concat(pieces) == Concat(pieces[..|pieces| - 1]) + pieces[|pieces| - 1]
  {
  }

  lemma OccursInMiddle(a: string, t: string, b: string)
    ensures OccursAt(a + t + b, t, |a|) && Contains(a + t + b, t)
  {
    var s := a + t + b;
    assert s[|a|..|a| + |t|] == t;
    assert OccursAt(s, t, |a|);
  }
}
