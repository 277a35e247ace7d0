/**
 * Python's str.split(sep) on a non-empty separator, stated over occurrences
 * of the separator. The crawler's field extraction, id recovery and address
 * stripping are all chains of `split(...)[k]`.
 */
module Strings {
  import opened Wrappers

  /** `pat` occurs in `s` starting at index `i`. */
  predicate OccursAt(s: string, pat: string, i: nat) {
    i + |pat| <= |s| && s[i..i + |pat|] == pat
  }

  predicate Contains(s: string, pat: string) {
    exists i: nat | i <= |s| :: OccursAt(s, pat, i)
  }

  /** `i` is the first occurrence of `pat` in `s`. */
  predicate IsFirst(s: string, pat: string, i: nat) {
    OccursAt(s, pat, i) && forall j: nat :: j < i ==> !OccursAt(s, pat, j)
  }

  /** The first occurrence of `pat` in `s` at or after index `from`. */
  function FindFrom(s: string, pat: string, from: nat): (r: Option<nat>)
    ensures r.Some? ==> from <= r.value && OccursAt(s, pat, r.value)
    ensures r.Some? ==> forall j: nat :: from <= j < r.value ==> !OccursAt(s, pat, j)
    ensures r.None? ==> forall j: nat :: from <= j ==> !OccursAt(s, pat, j)
    decreases |s| - from
  {
    if from + |pat| > |s| then None
    else if s[from..from + |pat|] == pat then Some(from)
    else FindFrom(s, pat, from + 1)
  }

  /** The first occurrence of `pat` in `s`, if any. */
  function Find(s: string, pat: string): (r: Option<nat>)
    ensures r.None? <==> !Contains(s, pat)
    ensures r.Some? ==> IsFirst(s, pat, r.value)
  {
    FindFrom(s, pat, 0)
  }

  lemma FindIsFirst(s: string, pat: string, i: nat)
    requires IsFirst(s, pat, i)
    ensures Find(s, pat) == Some(i)
  {
  }

  /** `s.split(sep)`: the pieces between non-overlapping occurrences of `sep`, scanned left to right. */
  function Split(s: string, sep: string): (r: seq<string>)
    requires sep != []
    ensures 1 <= |r|
    decreases |s|
  {
    match Find(s, sep)
    case None => [s]
    case Some(i) => [s[..i]] + Split(s[i + |sep|..], sep)
  }

  /** `sep.join(pieces)`. */
  function JoinPieces(pieces: seq<string>, sep: string): string
    requires 1 <= |pieces|
  {
    if |pieces| == 1 then pieces[0] else pieces[0] + sep + JoinPieces(pieces[1..], sep)
  }

  /** `s.split(sep)[k]`; None where Python raises IndexError. */
  function Piece(s: string, sep: string, k: nat): Option<string>
    requires sep != []
  {
    var pieces := Split(s, sep);
    if k < |pieces| then Some(pieces[k]) else None
  }

  /** `s.split(sep)[0]`, which never raises. */
  function Before(s: string, sep: string): string
    requires sep != []
  {
    Split(s, sep)[0]
  }

  /** One step of a split: the piece before the first occurrence, then the split of what follows it. */
  lemma SplitStep(s: string, sep: string, i: nat)
    requires sep != [] && Find(s, sep) == Some(i)
    ensures i + |sep| <= |s|
    ensures Split(s, sep) == [s[..i]] + Split(s[i + |sep|..], sep)
    ensures s == s[..i] + sep + s[i + |sep|..]
  {
    assert s == s[..i] + s[i..i + |sep|] + s[i + |sep|..];
  }

  lemma JoinPiecesCons(p: string, rest: seq<string>, sep: string)
    requires 1 <= |rest|
    ensures JoinPieces([p] + rest, sep) == p + sep + JoinPieces(rest, sep)
  {
    assert ([p] + rest)[1..] == rest;
  }

  lemma {:induction false} SplitJoin(s: string, sep: string)
    requires sep != []
    ensures JoinPieces(Split(s, sep), sep) == s
    decreases |s|
  {
    var f := Find(s, sep);
    if f.Some? {
      var i := f.value;
      SplitStep(s, sep, i);
      SplitJoin(s[i + |sep|..], sep);
      JoinPiecesCons(s[..i], Split(s[i + |sep|..], sep), sep);
    }
  }

  lemma OccursInPrefix(a: string, b: string, pat: string, j: nat)
    requires a <= b && OccursAt(a, pat, j)
    ensures OccursAt(b, pat, j)
  {
    assert b[j..j + |pat|] == a[j..j + |pat|];
  }

  lemma ContainsInPrefix(a: string, b: string, pat: string)
    requires a <= b && Contains(a, pat)
    ensures Contains(b, pat)
  {
    var j: nat :| OccursAt(a, pat, j);
    OccursInPrefix(a, b, pat, j);
  }

  /** Nothing before the first occurrence contains the separator. */
  lemma NoneBeforeFirst(s: string, pat: string, i: nat)
    requires pat != [] && IsFirst(s, pat, i)
    ensures !Contains(s[..i], pat)
  {
    if Contains(s[..i], pat) {
      var j: nat :| OccursAt(s[..i], pat, j);
      OccursInPrefix(s[..i], s, pat, j);
    }
  }

  /** The pieces of a split never contain the separator. */
  lemma {:induction false} SplitPiecesFree(s: string, sep: string)
    requires sep != []
    ensures forall k :: 0 <= k < |Split(s, sep)| ==> !Contains(Split(s, sep)[k], sep)
    decreases |s|
  {
    match Find(s, sep)
    case None =>
    case Some(i) =>
      NoneBeforeFirst(s, sep, i);
      SplitPiecesFree(s[i + |sep|..], sep);
  }

  /**
   * `s.split(sep)[0]` is `s` up to the first occurrence of `sep`, or all of
   * `s` when there is none; it never contains `sep`, and taking it twice
   * changes nothing.
   */
  lemma BeforeSpec(s: string, sep: string)
    requires sep != []
    ensures Before(s, sep) <= s
    ensures !Contains(Before(s, sep), sep)
    ensures Before(s, sep) == s <==> !Contains(s, sep)
    ensures Contains(s, sep) ==> IsFirst(s, sep, |Before(s, sep)|)
    ensures Before(Before(s, sep), sep) == Before(s, sep)
  {
    match Find(s, sep)
    case None =>
    case Some(i) =>
      NoneBeforeFirst(s, sep, i);
      assert OccursAt(s, sep, i);
      assert Before(s, sep) != s;
  }

  /**
   * `s.split(sep)[1]` exists exactly when `sep` occurs; it is the text after
   * the first occurrence up to the next one.
   */
  lemma SecondPiece(s: string, sep: string)
    requires sep != []
    ensures Piece(s, sep, 1).Some? <==> Contains(s, sep)
    ensures forall i: nat :: IsFirst(s, sep, i) ==> Piece(s, sep, 1) == Some(Before(s[i + |sep|..], sep))
  {
    match Find(s, sep)
    case None =>
    case Some(i) =>
      forall i': nat | IsFirst(s, sep, i') ensures i' == i { FindIsFirst(s, sep, i'); }
  }

  /** An occurrence of `y` could start `d` characters into an occurrence of `x`. */
  predicate CanOverlap(x: string, y: string, d: nat) {
    0 < d < |x| && forall t: nat :: t < |y| && d + t < |x| ==> x[d + t] == y[t]
  }

  /** Overlapping occurrences agree where they overlap. */
  lemma OverlapShift(s: string, x: string, y: string, j: nat, k: nat)
    requires OccursAt(s, x, j) && OccursAt(s, y, k) && j < k < j + |x|
    ensures CanOverlap(x, y, k - j)
  {
    forall t: nat | t < |y| && k - j + t < |x|
      ensures x[k - j + t] == y[t]
    {
      assert s[j..j + |x|][k - j + t] == s[k + t] == s[k..k + |y|][t];
    }
  }

  /** One disagreeing character rules an overlap out. */
  lemma Mismatch(x: string, y: string, d: nat, t: nat)
    requires t < |y| && d + t < |x| && x[d + t] != y[t]
    ensures !CanOverlap(x, y, d)
  {
  }

  /** Text that lacks the separator's first character cannot contain the separator. */
  lemma MissingFirstChar(s: string, pat: string)
    requires pat != [] && pat[0] !in s
    ensures !Contains(s, pat)
  {
  }

  /** A split of text without the separator is the text alone. */
  lemma SplitAbsent(s: string, sep: string)
    requires sep != [] && !Contains(s, sep)
    ensures Split(s, sep) == [s]
  {
  }

  /** When `p` lacks the separator's first character, splitting `p + sep + q` cuts exactly after `p`. */
  lemma SplitAfterFree(p: string, sep: string, q: string)
    requires sep != [] && sep[0] !in p
    ensures Split(p + sep + q, sep) == [p] + Split(q, sep)
  {
    var s := p + sep + q;
    assert s[|p|..|p| + |sep|] == sep;
    assert forall j: nat :: j < |p| ==> !OccursAt(s, sep, j);
    FindIsFirst(s, sep, |p|);
    SplitStep(s, sep, |p|);
    assert s[..|p|] == p && s[|p| + |sep|..] == q;
  }

  /** The first piece of `p + sep + q` is `p` when `p` lacks the separator's first character. */
  lemma BeforeAfterFree(p: string, sep: string, q: string)
    requires sep != [] && sep[0] !in p
    ensures Before(p + sep + q, sep) == p
  {
    SplitAfterFree(p, sep, q);
  }

  /** ... and the second piece is `q` when `q` holds no separator. */
  lemma SecondPieceAfterFree(p: string, sep: string, q: string)
    requires sep != [] && sep[0] !in p && !Contains(q, sep)
    ensures Piece(p + sep + q, sep, 1) == Some(q)
  {
    SplitAfterFree(p, sep, q);
    SplitAbsent(q, sep);
  }

  /** A one-character separator occurs exactly when the character does. */
  lemma ContainsChar(s: string, c: char)
    ensures Contains(s, [c]) <==> c in s
  {
    if c in s {
      var k :| 0 <= k < |s| && s[k] == c;
      assert OccursAt(s, [c], k);
    }
    if Contains(s, [c]) {
      var k: nat :| k <= |s| && OccursAt(s, [c], k);
      assert s[k..k + 1] == [c];
      assert s[k] == c;
    }
  }
}
