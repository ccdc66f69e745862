/** `fuzzy_replace`: every exact occurrence of OLD, or else the first window of lines equal to it up to
    whitespace. The exact tier is proved against the unique leftmost split of the content, the line tiers
    against the first matching window. */
module FuzzyEdit {
  import opened Wrappers
  import opened Text
  import opened Splitting

  /** Position of the first line that collapses to `target`. */
  function Position(lines: seq<string>, target: string, i: nat): (r: Option<nat>)
    ensures r.Some? ==> r.value < |lines|
    decreases |lines| - i
  {
    if i >= |lines| then None else if Collapse(lines[i]) == target then Some(i) else Position(lines, target, i + 1)
  }

  /** `old_lines.iter().enumerate().all(..)` from line `i` on. */
  predicate AllMatch(lines: seq<string>, olds: seq<string>, i: nat)
  {
    forall j :: 0 <= j < |olds| ==> i + j < |lines| && Collapse(lines[i + j]) == olds[j]
  }

  function FindStart(lines: seq<string>, olds: seq<string>, i: nat): Option<nat>
    requires olds != []
    decreases |lines| - i
  {
    if i >= |lines| then None
    else if Collapse(lines[i]) == olds[0] && AllMatch(lines, olds, i) then Some(i)
    else FindStart(lines, olds, i + 1)
  }

  function CollapseAll(lines: seq<string>): seq<string>
  {
    seq(|lines|, i requires 0 <= i < |lines| => Collapse(lines[i]))
  }

  lemma LinesOfText(s: string)
    ensures s != "" ==> Lines(s) != []
  {
  }

  /** The line tiers: a single OLD line is looked up, several are matched window by window. */
  function LineReplace(lines: seq<string>, olds: seq<string>, news: seq<string>): Option<string>
    requires olds != []
  {
    if |olds| == 1 then
      match Position(lines, olds[0], 0)
      case None => None
      case Some(idx) => Some(Join(lines[..idx] + news + lines[idx + 1..], "\n"))
    else
      match FindStart(lines, olds, 0)
      case None => None
      case Some(start) =>
        FindStartBounds(lines, olds, 0);
        Some(Join(lines[..start] + news + lines[start + |olds|..], "\n"))
  }

  function FuzzyReplace(content: string, oldText: string, newText: string): Option<string>
  {
    var c, o, n := Normalize(content), Trim(Normalize(oldText)), Trim(Normalize(newText));
    if o == "" then None
    else if Find(c, o).Some? then Some(ReplaceAll(c, o, n))
    else
      LinesOfText(o);
      LineReplace(Lines(c), CollapseAll(Lines(o)), Lines(n))
  }

  // ------------------------------------------------------------------ line tiers

  /** The reference: OLD's lines, collapsed, sit at line `i`. */
  predicate WindowAt(lines: seq<string>, olds: seq<string>, i: nat)
  {
    i + |olds| <= |lines| && forall j :: 0 <= j < |olds| ==> Collapse(lines[i + j]) == olds[j]
  }

  predicate FirstWindow(lines: seq<string>, olds: seq<string>, i: nat)
  {
    WindowAt(lines, olds, i) && forall j :: 0 <= j < i ==> !WindowAt(lines, olds, j)
  }

  lemma AllMatchIsWindow(lines: seq<string>, olds: seq<string>, i: nat)
    requires olds != []
    ensures AllMatch(lines, olds, i) <==> WindowAt(lines, olds, i)
    ensures AllMatch(lines, olds, i) ==> Collapse(lines[i]) == olds[0]
  {
    if AllMatch(lines, olds, i) {
      var last := olds[|olds| - 1];
      assert i + (|olds| - 1) < |lines|;
      assert Collapse(lines[i + 0]) == olds[0];
    }
  }

  /** `r` is the first window from `i` on. */
  ghost predicate FirstFrom(lines: seq<string>, olds: seq<string>, i: nat, r: Option<nat>)
  {
    match r
    case Some(k) => i <= k && WindowAt(lines, olds, k) && forall j :: i <= j < k ==> !WindowAt(lines, olds, j)
    case None => forall j :: i <= j ==> !WindowAt(lines, olds, j)
  }

  lemma NotHere(lines: seq<string>, olds: seq<string>, i: nat, r: Option<nat>)
    requires !WindowAt(lines, olds, i) && FirstFrom(lines, olds, i + 1, r)
    ensures FirstFrom(lines, olds, i, r)
  {
  }

  lemma {:induction false} FindStartBounds(lines: seq<string>, olds: seq<string>, i: nat)
    requires olds != [] && i <= |lines|
    ensures FirstFrom(lines, olds, i, FindStart(lines, olds, i))
    decreases |lines| - i
  {
    if i < |lines| {
      AllMatchIsWindow(lines, olds, i);
      if !AllMatch(lines, olds, i) {
        FindStartBounds(lines, olds, i + 1);
        NotHere(lines, olds, i, FindStart(lines, olds, i + 1));
      }
    }
  }

  /** The single-line branch is the multi-line search at width one. */
  lemma {:induction false} PositionIsFindStart(lines: seq<string>, target: string, i: nat)
    requires i <= |lines|
    ensures Position(lines, target, i) == FindStart(lines, [target], i)
    decreases |lines| - i
  {
    if i < |lines| { PositionIsFindStart(lines, target, i + 1); }
  }

  lemma LineReplaceSpec(lines: seq<string>, olds: seq<string>, news: seq<string>) returns (i: nat)
    requires olds != []
    ensures match LineReplace(lines, olds, news)
            case None => forall j :: 0 <= j ==> !WindowAt(lines, olds, j)
            case Some(r) => FirstWindow(lines, olds, i) && r == Join(lines[..i] + news + lines[i + |olds|..], "\n")
  {
    FindStartBounds(lines, olds, 0);
    if |olds| == 1 {
      assert olds == [olds[0]];
      PositionIsFindStart(lines, olds[0], 0);
    }
    i := if FindStart(lines, olds, 0).Some? then FindStart(lines, olds, 0).value else 0;
  }

  /** An edit that reaches the line tiers, and the lines it then works on. */
  ghost predicate PastExactTier(content: string, oldText: string, newText: string,
                                lines: seq<string>, olds: seq<string>, news: seq<string>)
  {
    var c, o := Normalize(content), Trim(Normalize(oldText));
    && o != "" && !Contains(c, o)
    && lines == Lines(c) && olds == CollapseAll(Lines(o)) && news == Lines(Trim(Normalize(newText)))
  }

  lemma LineTierResult(content: string, oldText: string, newText: string, lines: seq<string>, olds: seq<string>,
                       news: seq<string>)
    requires PastExactTier(content, oldText, newText, lines, olds, news)
    ensures olds != [] && FuzzyReplace(content, oldText, newText) == LineReplace(lines, olds, news)
  {
    assert Find(Normalize(content), Trim(Normalize(oldText))).None?;
    LinesOfText(Trim(Normalize(oldText)));
  }

  /** Past the exact tier, an edit fails exactly when no window of lines matches; otherwise it replaces the
      first such window and keeps every line before and after it. */
  lemma LineTiers(content: string, oldText: string, newText: string, lines: seq<string>, olds: seq<string>,
                  news: seq<string>)
    returns (i: nat)
    requires PastExactTier(content, oldText, newText, lines, olds, news)
    ensures match FuzzyReplace(content, oldText, newText)
            case None => forall j :: 0 <= j ==> !WindowAt(lines, olds, j)
            case Some(r) => FirstWindow(lines, olds, i) && r == Join(lines[..i] + news + lines[i + |olds|..], "\n")
  {
    LineTierResult(content, oldText, newText, lines, olds, news);
    i := LineReplaceSpec(lines, olds, news);
  }

  /** Lines that survive being joined and split again. */
  predicate PlainLine(l: string) { '\n' !in l && (l == "" || l[|l| - 1] != '\r') }

  lemma LinesCons(l: string, rest: string)
    requires '\n' !in l
    ensures Lines(l + "\n" + rest) == [StripCr(l)] + Lines(rest)
  {
    var s := l + "\n" + rest;
    assert l + "\n"[..0] == l;
    if i :| OccursAt(l, "\n", i) { OccurrenceCovers(l, "\n", i, i); }
    FindAfter(l, "\n", rest);
    assert s[..|l|] == l && s[|l| + 1..] == rest;
  }

  /** What reading joined lines back does to them: every line but the last loses one '\r' at its end. */
  function Stripped(ls: seq<string>): seq<string>
  {
    if |ls| <= 1 then ls else [StripCr(ls[0])] + Stripped(ls[1..])
  }

  lemma {:induction false} StrippedPlain(ls: seq<string>)
    requires forall l :: l in ls ==> PlainLine(l)
    ensures Stripped(ls) == ls
    decreases |ls|
  {
    if |ls| > 1 {
      assert ls[0] in ls && ls == [ls[0]] + ls[1..];
      StrippedPlain(ls[1..]);
    }
  }

  /** Drops one blank line at the end. */
  function DropBlankEnd(ls: seq<string>): seq<string>
  {
    if ls != [] && ls[|ls| - 1] == "" then ls[..|ls| - 1] else ls
  }

  lemma DropBlankEndCons(l: string, rest: seq<string>)
    requires rest != []
    ensures DropBlankEnd([l] + rest) == [l] + DropBlankEnd(rest)
  {
    var ls := [l] + rest;
    assert ls[|ls| - 1] == rest[|rest| - 1];
    assert ls[..|ls| - 1] == [l] + rest[..|rest| - 1];
  }

  lemma LinesOfOne(l: string)
    requires '\n' !in l
    ensures Lines(l) == DropBlankEnd([l])
  {
    if i :| OccursAt(l, "\n", i) { OccurrenceCovers(l, "\n", i, i); }
  }

  /** Joined lines read back stripped, but for one blank line at the end, which is dropped. */
  lemma {:induction false} LinesOfJoin(ls: seq<string>)
    requires forall l :: l in ls ==> '\n' !in l
    ensures Lines(Join(ls, "\n")) == DropBlankEnd(Stripped(ls))
    decreases |ls|
  {
    if |ls| == 1 {
      LinesOfOne(ls[0]);
      assert ls == [ls[0]];
    } else if |ls| > 1 {
      LinesOfJoin(ls[1..]);
      LinesCons(ls[0], Join(ls[1..], "\n"));
      DropBlankEndCons(StripCr(ls[0]), Stripped(ls[1..]));
    }
  }

  lemma LinesOfPlain(ls: seq<string>)
    requires forall l :: l in ls ==> PlainLine(l)
    ensures Lines(Join(ls, "\n")) == DropBlankEnd(ls)
  {
    LinesOfJoin(ls);
    StrippedPlain(ls);
  }

  lemma LinesAt(s: string, i: nat)
    requires Find(s, "\n") == Some(i)
    ensures s == s[..i] + "\n" + s[i + 1..] && '\n' !in s[..i]
  {
    assert s[i..i + 1] == "\n";
    forall k | 0 <= k < i ensures s[k] != '\n' {
      assert !OccursAt(s, "\n", k);
      assert s[k..k + 1] == [s[k]];
    }
  }

  lemma {:induction false} LinesArePlain(s: string)
    requires '\r' !in s
    ensures forall l :: l in Lines(s) ==> PlainLine(l) && '\r' !in l
    decreases |s|
  {
    if s != "" {
      match Find(s, "\n") {
        case None =>
          forall k | 0 <= k < |s| ensures s[k] != '\n' {
            assert !OccursAt(s, "\n", k);
            assert s[k..k + 1] == [s[k]];
          }
        case Some(i) =>
          LinesAt(s, i);
          LinesArePlain(s[i + 1..]);
      }
    }
  }

  lemma {:induction false} LinesAreSingle(s: string)
    ensures forall l :: l in Lines(s) ==> '\n' !in l
    decreases |s|
  {
    if s != "" {
      match Find(s, "\n") {
        case None =>
          forall k | 0 <= k < |s| ensures s[k] != '\n' {
            assert !OccursAt(s, "\n", k);
            assert s[k..k + 1] == [s[k]];
          }
        case Some(i) =>
          LinesAt(s, i);
          LinesAreSingle(s[i + 1..]);
      }
    }
  }

  /** The lines of the edited file are the lines before the window, the new lines and the lines after it, as reading
      them back strips them; a file that then ends in a blank line loses it.
      Without a stray '\r' nothing is stripped. */
  lemma EditedLines(content: string, oldText: string, newText: string, lines: seq<string>, olds: seq<string>,
                    news: seq<string>)
    returns (i: nat)
    requires PastExactTier(content, oldText, newText, lines, olds, news)
    requires FuzzyReplace(content, oldText, newText).Some?
    ensures FirstWindow(lines, olds, i)
    ensures var edited := lines[..i] + news + lines[i + |olds|..];
            && Lines(FuzzyReplace(content, oldText, newText).value) == DropBlankEnd(Stripped(edited))
            && ('\r' !in Normalize(content) && '\r' !in Trim(Normalize(newText)) ==> Stripped(edited) == edited)
  {
    i := LineTiers(content, oldText, newText, lines, olds, news);
    SingleSources(content, oldText, newText, lines, olds, news);
    var edited := lines[..i] + news + lines[i + |olds|..];
    EditedMembers(lines, news, i, i + |olds|, edited);
    EditedReadBack(edited, FuzzyReplace(content, oldText, newText).value);
  }

  lemma EditedMembers(lines: seq<string>, news: seq<string>, i: nat, k: nat, edited: seq<string>)
    requires i <= k <= |lines| && edited == lines[..i] + news + lines[k..]
    ensures forall l :: l in edited ==> l in lines || l in news
  {
  }

  lemma EditedReadBack(edited: seq<string>, r: string)
    requires (forall l :: l in edited ==> '\n' !in l) && r == Join(edited, "\n")
    ensures Lines(r) == DropBlankEnd(Stripped(edited))
    ensures (forall l :: l in edited ==> PlainLine(l)) ==> Stripped(edited) == edited
  {
    LinesOfJoin(edited);
    if forall l :: l in edited ==> PlainLine(l) { StrippedPlain(edited); }
  }

  lemma SingleSources(content: string, oldText: string, newText: string, lines: seq<string>, olds: seq<string>,
                      news: seq<string>)
    requires PastExactTier(content, oldText, newText, lines, olds, news)
    ensures (forall l :: l in lines ==> '\n' !in l) && (forall l :: l in news ==> '\n' !in l)
    ensures '\r' !in Normalize(content) && '\r' !in Trim(Normalize(newText)) ==>
              forall l :: l in lines || l in news ==> PlainLine(l)
  {
    LinesAreSingle(Normalize(content));
    LinesAreSingle(Trim(Normalize(newText)));
    if '\r' !in Normalize(content) && '\r' !in Trim(Normalize(newText)) {
      LinesArePlain(Normalize(content));
      LinesArePlain(Trim(Normalize(newText)));
    }
  }

  // ------------------------------------------------------------------ exact tier

  lemma {:induction false} ReplaceRejoins(s: string, pat: string, rep: string)
    requires pat != ""
    ensures ReplaceAll(s, pat, rep) == Join(Pieces(s, pat), rep)
    decreases |s|
  {
    match Find(s, pat) {
      case None =>
      case Some(i) =>
        var head, rest := s[..i], s[i + |pat|..];
        var tail := Pieces(rest, pat);
        ReplaceRejoins(rest, pat, rep);
        JoinCons(head, tail, rep);
        assert Pieces(s, pat) == [head] + tail;
        assert ReplaceAll(s, pat, rep) == head + rep + Join(tail, rep);
    }
  }

  lemma {:induction false} JoinLength(pieces: seq<string>, p: string, q: string)
    requires pieces != []
    ensures |Join(pieces, q)| == |Join(pieces, p)| + (|pieces| - 1) * (|q| - |p|)
    decreases |pieces|
  {
    if |pieces| > 1 {
      JoinLength(pieces[1..], p, q);
      assert (|pieces| - 1) * (|q| - |p|) == (|pieces| - 2) * (|q| - |p|) + (|q| - |p|);
    }
  }

  /** An exact edit rewrites every occurrence and nothing else, and its size is accounted for. */
  lemma ExactTier(content: string, oldText: string, newText: string)
    requires var o := Trim(Normalize(oldText)); o != "" && Contains(Normalize(content), o)
    ensures var c, o, n := Normalize(content), Trim(Normalize(oldText)), Trim(Normalize(newText));
            var pieces := Pieces(c, o);
            && FuzzyReplace(content, oldText, newText) == Some(Join(pieces, n))
            && c == Join(pieces, o) && LeftmostSplit(pieces, o) && |pieces| >= 2
            && |Join(pieces, n)| == |c| + (|pieces| - 1) * (|n| - |o|)
  {
    var c, o, n := Normalize(content), Trim(Normalize(oldText)), Trim(Normalize(newText));
    PiecesSplit(c, o);
    ReplaceRejoins(c, o, n);
    JoinLength(Pieces(c, o), o, n);
  }

  /** Replacing OLD by itself is the identity on the normalized content. */
  lemma ReplaceBySelf(content: string, oldText: string)
    requires var o := Trim(Normalize(oldText)); o != "" && Contains(Normalize(content), o)
    ensures FuzzyReplace(content, oldText, oldText) == Some(Normalize(content))
  {
    ExactTier(content, oldText, oldText);
  }

}
