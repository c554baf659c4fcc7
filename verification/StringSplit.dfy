/** `katla::string::split` (core/string-utils.cpp) and its inverse. */
module StringSplit {
  import opened Primitives
  import opened Sequences

  predicate OccursAt(s: string, d: string, i: nat) {
    i + |d| <= |s| && s[i..i + |d|] == d
  }

  ghost predicate Contains(s: string, d: string) {
    exists i: nat :: OccursAt(s, d, i)
  }

  /** `std::string::find`: the leftmost occurrence at or after `pos`. */
  function FindFrom(s: string, d: string, pos: nat): (r: Option<nat>)
    requires pos <= |s|
    ensures r.Some? ==> pos <= r.value && OccursAt(s, d, r.value)
    ensures r.Some? ==> forall j :: pos <= j < r.value ==> !OccursAt(s, d, j)
    ensures r.None? ==> forall j :: pos <= j ==> !OccursAt(s, d, j)
    decreases |s| - pos
  {
    if OccursAt(s, d, pos) then Some(pos)
    else if pos == |s| then None
    else FindFrom(s, d, pos + 1)
  }

  predicate StartsWith(s: string, start: string) {
    if |start| > |s| then false else s[..|start|] == start
  }

  function Join(pieces: seq<string>, d: string): string
    requires pieces != []
  {
    if |pieces| == 1 then pieces[0] else pieces[0] + d + Join(pieces[1..], d)
  }

  /** The pieces of `s` that start at or after `pos`. */
  function PiecesFrom(s: string, d: string, pos: nat): (r: seq<string>)
    requires d != "" && pos <= |s|
    ensures r != []
    decreases |s| - pos
  {
    match FindFrom(s, d, pos)
    case None => [s[pos..]]
    case Some(i) => [s[pos..i]] + PiecesFrom(s, d, i + |d|)
  }

  function Pieces(s: string, d: string): (r: seq<string>)
    requires d != ""
  {
    PiecesFrom(s, d, 0)
  }

  lemma PiecesStep(s: string, d: string, pos: nat, i: nat, piece: string)
    requires d != "" && pos <= |s| && FindFrom(s, d, pos) == Some(i) && piece == s[pos..i]
    ensures PiecesFrom(s, d, pos) == [piece] + PiecesFrom(s, d, i + |d|)
  {
  }

  method Split(input: string, delimiter: string) returns (result: seq<string>)
    requires delimiter != "" && |input| <= MAX_INT
    ensures result == Pieces(input, delimiter)
  {
    ghost var all := Pieces(input, delimiter);
    result := [];
    var pos := 0;
    var newPos := FindFrom(input, delimiter, pos);
    while newPos.Some?
      invariant pos <= |input|
      invariant newPos == FindFrom(input, delimiter, pos)
      invariant result + PiecesFrom(input, delimiter, pos) == all
      decreases |input| - pos
    {
      var size := newPos.value - pos;
      var piece := input[pos..pos + size];
      PiecesStep(input, delimiter, pos, newPos.value, piece);
      pos := newPos.value + |delimiter|;
      Associate(result, [piece], PiecesFrom(input, delimiter, pos));
      result := result + [piece];
      newPos := FindFrom(input, delimiter, pos);
    }
    result := result + [input[pos..]];
  }

  lemma JoinCons(piece: string, rest: seq<string>, d: string)
    requires rest != []
    ensures Join([piece] + rest, d) == piece + d + Join(rest, d)
  {
    assert ([piece] + rest)[1..] == rest;
  }

  lemma SplitsAtDelimiter(s: string, d: string, pos: nat, i: nat)
    requires pos <= i && OccursAt(s, d, i)
    ensures s[pos..] == s[pos..i] + d + s[i + |d|..]
  {
    assert s[pos..] == s[pos..i] + s[i..i + |d|] + s[i + |d|..];
  }

  lemma {:induction false} JoinOfPiecesFrom(s: string, d: string, pos: nat)
    requires d != "" && pos <= |s|
    ensures Join(PiecesFrom(s, d, pos), d) == s[pos..]
    decreases |s| - pos
  {
    match FindFrom(s, d, pos)
    case None =>
    case Some(i) =>
      JoinOfPiecesFrom(s, d, i + |d|);
      JoinCons(s[pos..i], PiecesFrom(s, d, i + |d|), d);
      SplitsAtDelimiter(s, d, pos, i);
  }

  lemma JoinOfPieces(s: string, d: string)
    requires d != ""
    ensures Join(Pieces(s, d), d) == s
  {
    JoinOfPiecesFrom(s, d, 0);
  }

  ghost predicate DelimiterFree(pieces: seq<string>, d: string) {
    forall k :: 0 <= k < |pieces| ==> !Contains(pieces[k], d)
  }

  lemma SliceIsFree(s: string, d: string, lo: nat, hi: nat)
    requires lo <= hi <= |s|
    requires forall j :: lo <= j < hi ==> !OccursAt(s, d, j)
    requires d != ""
    ensures !Contains(s[lo..hi], d)
  {
    forall j: nat
      ensures !OccursAt(s[lo..hi], d, j)
    {
      if OccursAt(s[lo..hi], d, j) {
        SliceOfSlice(s, lo, hi, j, j + |d|);
        assert OccursAt(s, d, lo + j);
      }
    }
  }

  lemma {:induction false} PiecesFromAreFree(s: string, d: string, pos: nat)
    requires d != "" && pos <= |s|
    ensures DelimiterFree(PiecesFrom(s, d, pos), d)
    decreases |s| - pos
  {
    match FindFrom(s, d, pos)
    case None =>
      SliceIsFree(s, d, pos, |s|);
      assert s[pos..|s|] == s[pos..];
    case Some(i) =>
      SliceIsFree(s, d, pos, i);
      PiecesFromAreFree(s, d, i + |d|);
  }

  lemma PiecesAreFree(s: string, d: string)
    requires d != ""
    ensures DelimiterFree(Pieces(s, d), d)
  {
    PiecesFromAreFree(s, d, 0);
  }

  /** The first k characters of d are also its last k. */
  predicate IsBorder(d: string, k: nat) { 0 < k < |d| && d[..k] == d[|d| - k..] }

  /** No proper non-empty prefix of `d` is also a suffix of it. */
  ghost predicate Unbordered(d: string) { forall k :: !IsBorder(d, k) }

  /** An occurrence that straddles the start of another one is a border of d. */
  lemma OverlapIsBorder(s: string, d: string, i: nat, j: nat)
    requires OccursAt(s, d, i) && OccursAt(s, d, j) && j < i < j + |d|
    ensures IsBorder(d, j + |d| - i)
  {
    var k := j + |d| - i;
    assert s[j..j + |d|][|d| - k..] == s[i..i + k];
    assert s[i..i + |d|][..k] == s[i..i + k];
  }

  /** An unbordered d that occurs right after a d-free slice is first found there. */
  lemma FirstDelimiterIsAfterPiece(s: string, d: string, lo: nat, i: nat)
    requires d != "" && Unbordered(d)
    requires lo <= i && OccursAt(s, d, i) && !Contains(s[lo..i], d)
    ensures FindFrom(s, d, lo) == Some(i)
  {
    forall j: nat | lo <= j < i
      ensures !OccursAt(s, d, j)
    {
      if OccursAt(s, d, j) {
        if j + |d| <= i {
          SliceOfSlice(s, lo, i, j - lo, j - lo + |d|);
          assert OccursAt(s[lo..i], d, j - lo);
        } else {
          OverlapIsBorder(s, d, i, j);
        }
      }
    }
  }

  lemma WhatIsFoundIsContained(s: string, d: string, lo: nat)
    requires lo <= |s| && FindFrom(s, d, lo).Some?
    ensures Contains(s[lo..], d)
  {
    var i := FindFrom(s, d, lo).value;
    assert s[lo..|s|] == s[lo..];
    SliceOfSlice(s, lo, |s|, i - lo, i - lo + |d|);
    assert OccursAt(s[lo..], d, i - lo);
  }

  lemma PiecesOfCons(s: string, d: string, pos: nat, p: string, rest: seq<string>)
    requires d != "" && Unbordered(d)
    requires rest != [] && !Contains(p, d) && DelimiterFree(rest, d)
    requires pos <= |s| && s[pos..] == p + d + Join(rest, d)
    ensures PiecesFrom(s, d, pos) == [p] + rest
    decreases |rest|, 1
  {
    var tail := Join(rest, d);
    SuffixSplits(s, pos, p, d, tail);
    var next := pos + |p| + |d|;
    PiecesOfJoinFrom(s, d, next, rest);
    FirstDelimiterIsAfterPiece(s, d, pos, pos + |p|);
    PiecesStep(s, d, pos, pos + |p|, p);
  }

  lemma {:induction false} PiecesOfJoinFrom(s: string, d: string, pos: nat, pieces: seq<string>)
    requires d != "" && Unbordered(d)
    requires pieces != [] && DelimiterFree(pieces, d)
    requires pos <= |s| && s[pos..] == Join(pieces, d)
    ensures PiecesFrom(s, d, pos) == pieces
    decreases |pieces|, 0
  {
    var p, rest := pieces[0], pieces[1..];
    assert pieces == [p] + rest;
    if rest == [] {
      LastPiece(s, d, pos);
    } else {
      JoinCons(p, rest, d);
      PiecesOfCons(s, d, pos, p, rest);
    }
  }

  lemma LastPiece(s: string, d: string, pos: nat)
    requires d != "" && pos <= |s| && !Contains(s[pos..], d)
    ensures PiecesFrom(s, d, pos) == [s[pos..]]
  {
    if FindFrom(s, d, pos).Some? {
      WhatIsFoundIsContained(s, d, pos);
    }
  }

  lemma SuffixSplits(s: string, pos: nat, p: string, d: string, rest: string)
    requires pos <= |s| && s[pos..] == p + d + rest
    ensures |s| == pos + |p| + |d| + |rest|
    ensures s[pos..pos + |p|] == p && OccursAt(s, d, pos + |p|) && s[pos + |p| + |d|..] == rest
  {
    var t := s[pos..];
    assert t == s[pos..|s|];
    SliceOfSlice(s, pos, |s|, 0, |p|);
    SliceOfSlice(s, pos, |s|, |p|, |p| + |d|);
    SliceOfSlice(s, pos, |s|, |p| + |d|, |t|);
    assert t[0..|p|] == p && t[|p|..|p| + |d|] == d && t[|p| + |d|..|t|] == rest;
  }

  lemma PiecesOfJoin(pieces: seq<string>, d: string)
    requires d != "" && Unbordered(d)
    requires pieces != [] && DelimiterFree(pieces, d)
    ensures Pieces(Join(pieces, d), d) == pieces
  {
    var s := Join(pieces, d);
    assert s[0..] == s;
    PiecesOfJoinFrom(s, d, 0, pieces);
  }

  /** With a border of length k, the pieces [d without its last k characters, ""] are lost. */
  lemma BorderBreaksTheInverse(d: string, k: nat) returns (pieces: seq<string>)
    requires IsBorder(d, k)
    ensures |pieces| == 2 && DelimiterFree(pieces, d)
    ensures Pieces(Join(pieces, d), d) != pieces
  {
    var p := d[..|d| - k];
    pieces := [p, ""];
    forall i: nat
      ensures !OccursAt(p, d, i) && !OccursAt("", d, i)
    {
    }
    var s := Join(pieces, d);
    assert Join(pieces[1..], d) == "";
    assert s == p + d;
    assert s[..|d|] == p + d[..k] == d;
    assert OccursAt(s, d, 0);
    assert Pieces(s, d)[0] == "";
  }

  ghost predicate SplitInvertsJoin(d: string)
    requires d != ""
  {
    forall pieces: seq<string> | pieces != [] && DelimiterFree(pieces, d) :: Pieces(Join(pieces, d), d) == pieces
  }

  /** Split inverts join exactly for the delimiters that do not overlap themselves. */
  lemma SplitInvertsJoinIffUnbordered(d: string)
    requires d != ""
    ensures SplitInvertsJoin(d) <==> Unbordered(d)
    ensures |d| == 1 ==> SplitInvertsJoin(d)
  {
    if Unbordered(d) {
      forall pieces: seq<string> | pieces != [] && DelimiterFree(pieces, d)
        ensures Pieces(Join(pieces, d), d) == pieces
      {
        PiecesOfJoin(pieces, d);
      }
    } else {
      var k :| IsBorder(d, k);
      var pieces := BorderBreaksTheInverse(d, k);
      assert !SplitInvertsJoin(d);
    }
  }
}
