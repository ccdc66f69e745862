/** Splitting a text at a separator. */
module Splitting {
  import opened Wrappers
  import opened Text

  /** The text around the leftmost, non-overlapping occurrences. */
  function Pieces(s: string, pat: string): (r: seq<string>)
    requires pat != ""
    ensures r != []
    decreases |s|
  {
    match Find(s, pat)
    case None => [s]
    case Some(i) => [s[..i]] + Pieces(s[i + |pat|..], pat)
  }

  /** No piece lets an occurrence start before the separator that ends it, and the last has none at all. */
  ghost predicate LeftmostSplit(pieces: seq<string>, pat: string)
    requires pat != ""
  {
    pieces != [] && !Contains(pieces[|pieces| - 1], pat) &&
    forall k :: 0 <= k < |pieces| - 1 ==> !Contains(pieces[k] + pat[..|pat| - 1], pat)
  }

  lemma SplitCons(head: string, tail: seq<string>, pat: string)
    requires pat != "" && LeftmostSplit(tail, pat) && !Contains(head + pat[..|pat| - 1], pat)
    ensures LeftmostSplit([head] + tail, pat)
    ensures Join([head] + tail, pat) == head + pat + Join(tail, pat)
  {
    var all := [head] + tail;
    assert all[1..] == tail;
    forall k | 0 <= k < |all| - 1 ensures !Contains(all[k] + pat[..|pat| - 1], pat) {
      if k > 0 { assert all[k] == tail[k - 1]; }
    }
  }

  lemma {:induction false} PiecesSplit(s: string, pat: string)
    requires pat != ""
    ensures Join(Pieces(s, pat), pat) == s && LeftmostSplit(Pieces(s, pat), pat)
    decreases |s|
  {
    match Find(s, pat) {
      case None =>
      case Some(i) =>
        var rest := s[i + |pat|..];
        PiecesSplit(rest, pat);
        assert s == s[..i] + pat + rest;
        FindAfter(s[..i], pat, rest);
        SplitCons(s[..i], Pieces(rest, pat), pat);
    }
  }

  /** The split is the only one: its pieces are what leftmost, non-overlapping matching means. */
  lemma {:induction false} SplitIsUnique(s: string, pat: string, pieces: seq<string>)
    requires pat != "" && LeftmostSplit(pieces, pat) && Join(pieces, pat) == s
    ensures pieces == Pieces(s, pat)
    decreases |pieces|
  {
    if |pieces| > 1 {
      var rest := Join(pieces[1..], pat);
      SplitTail(pieces, pat);
      SplitIsUnique(rest, pat, pieces[1..]);
      PiecesAt(pieces[0], pat, rest, s);
      assert pieces == [pieces[0]] + pieces[1..];
    }
  }

  lemma SplitTail(pieces: seq<string>, pat: string)
    requires pat != "" && LeftmostSplit(pieces, pat) && |pieces| > 1
    ensures LeftmostSplit(pieces[1..], pat) && !Contains(pieces[0] + pat[..|pat| - 1], pat)
  {
    forall k | 0 <= k < |pieces[1..]| - 1 ensures !Contains(pieces[1..][k] + pat[..|pat| - 1], pat) {
      assert pieces[1..][k] == pieces[k + 1];
    }
  }

  lemma PiecesAt(head: string, pat: string, rest: string, s: string)
    requires pat != "" && s == head + pat + rest && !Contains(head + pat[..|pat| - 1], pat)
    ensures Pieces(s, pat) == [head] + Pieces(rest, pat)
  {
    FindAfter(head, pat, rest);
    assert s[..|head|] == head && s[|head| + |pat|..] == rest;
  }

  lemma JoinCons(head: string, tail: seq<string>, sep: string)
    requires tail != []
    ensures Join([head] + tail, sep) == head + sep + Join(tail, sep)
  {
    assert ([head] + tail)[1..] == tail;
  }
}
