/** The CREATE block the agent wraps around a bare answer: when it is wrapped, and what of it reaches the file. */
module AutoWrap {
  import opened Wrappers
  import opened Text
  import opened EditParser
  import opened EditRoundTrip

  predicate LooksConversational(content: string)
  {
    HasPrefix(content, "I ") || HasPrefix(content, "Here ") || HasPrefix(content, "To ") ||
    HasPrefix(content, "You ") || HasPrefix(content, "The ") || HasPrefix(content, "This ") ||
    Find(content, "you can").Some? || Find(content, "you should").Some?
  }

  function FirstMissing(files: seq<string>, present: string -> bool): Option<string>
  {
    if files == [] then None else if !present(files[0]) then Some(files[0]) else FirstMissing(files[1..], present)
  }

  /** A bare answer becomes a CREATE of the first file that does not exist yet. */
  function TryAutoWrap(content: string, files: seq<string>, present: string -> bool): Outcome<seq<FileEdit>>
  {
    if content == "" || Find(content, OPEN).Some? || LooksConversational(content) then Parsed([])
    else
      match FirstMissing(files, present)
      case None => Parsed([])
      case Some(target) =>
        var edits := Edits(Print(Create(target, content)));
        if edits.Failed? then Parsed([]) else edits
  }

  /** What of the answer reaches the file: the text before its first ">>>", without trailing whitespace. */
  function Kept(content: string): string
  {
    TrimEnd(match Find(content, CLOSE) case None => content case Some(i) => content[..i])
  }

  lemma TrimTail(x: string, blank: string)
    requires IsBlank(blank)
    ensures IsBlank("\n" + x + blank) <==> IsBlank(x)
    ensures !IsBlank(x) ==> TrimEnd("\n" + x + blank) == "\n" + TrimEnd(x)
  {
    TrimEndConcat("\n" + x, blank);
    TrimEndConcat("\n", x);
    if k :| 0 <= k < |x| && !IsSpace(x[k]) { assert ("\n" + x + blank)[k + 1] == x[k]; }
  }

  lemma WrapBlank(a: string, tail: string)
    requires StartsSolid(a) && EndsSolid(a) && IsBlank(tail)
    ensures Trim(a + tail) == a
  {
    TrimSolidStart(a, tail);
  }

  lemma WrapText(a: string, x: string, blank: string)
    requires StartsSolid(a) && IsBlank(blank) && !IsBlank(x)
    ensures Trim(a + ("\n" + x + blank)) == a + ("\n" + TrimEnd(x))
  {
    TrimTail(x, blank);
    TrimSolidStart(a, "\n" + x + blank);
  }

  lemma WrapBlock(a: string, x: string, blank: string)
    requires StartsSolid(a) && EndsSolid(a) && IsBlank(blank)
    ensures Trim(a + "\n" + x + blank) == if IsBlank(x) then a else a + "\n" + TrimEnd(x)
  {
    Regroup(a, "\n", x, blank);
    if IsBlank(x) { WrapBlank(a, "\n" + x + blank); } else { WrapText(a, x, blank); }
  }

  lemma Regroup(a: string, b: string, c: string, d: string)
    ensures a + b + c + d == a + (b + c + d) && a + (b + TrimEnd(c)) == a + b + TrimEnd(c)
  {
  }

  lemma WrapParses(target: string, x: string, blank: string)
    requires GoodPath(target) && IsBlank(blank)
    ensures ParseSingleBlock(Trim("CREATE " + target + "\n" + x + blank)) == Parsed(Create(target, TrimEnd(x)))
  {
    var a := "CREATE " + target;
    SolidEnds("CREATE ", target);
    WrapBlock(a, x, blank);
    TrimsToNothing(x);
    HeaderAndBody(a, TrimEnd(x));
    ReadCreate(if IsBlank(x) then a else a + "\n" + TrimEnd(x), target, TrimEnd(x));
  }

  /** Up to its first closing marker, text cannot complete one with ">>" after it. */
  lemma CutIsOpenEnded(content: string, i: nat)
    requires Find(content, CLOSE) == Some(i)
    ensures !Contains(content[..i] + ">>", CLOSE)
  {
    var s := content[..i] + ">>";
    assert content[i..i + 3] == CLOSE;
    forall k ensures !OccursAt(s, CLOSE, k) {
      if 0 <= k && k + 3 <= |s| {
        assert s == content[..i + 2] by { assert content[i] == CLOSE[0] && content[i + 1] == CLOSE[1]; }
        assert s[k..k + 3] == content[k..k + 3];
        assert !OccursAt(content, CLOSE, k);
      }
    }
  }

  lemma NoOpenAfter(content: string, i: nat)
    requires !Contains(content, OPEN) && i + 3 <= |content|
    ensures NextBlock(content[i + 3..] + "\n" + CLOSE) == Nothing
  {
    SliceWithout(content, i + 3, |content|, OPEN);
    assert content[i + 3..|content|] == content[i + 3..];
    NoStraddle(content[i + 3..], '\n', CLOSE, OPEN);
    if k :| OccursAt(CLOSE, OPEN, k) { OccurrenceCovers(CLOSE, OPEN, k, k); }
  }

  lemma OneBlock(s: string, block: string, rest: string, e: FileEdit)
    requires NextBlock(s) == Closed(block, rest) && NextBlock(rest) == Nothing && ParseSingleBlock(block) == Parsed(e)
    ensures Edits(s) == Parsed([e])
  {
    NoMore(rest);
    OneMore(s, block, rest, e, []);
    assert [e] + [] == [e];
  }

  lemma ScanAlone(x: string)
    requires !Contains(x, CLOSE)
    ensures NextBlock(OPEN + (x + "\n") + CLOSE) == Closed(Trim(x + "\n"), "") && NextBlock("") == Nothing
  {
    NothingOpens();
    GoodProseMeans("");
    ScanText("", x, "");
    var s := OPEN + (x + "\n") + CLOSE;
    assert "" + s + "" == s;
  }

  lemma ParsesAlone(x: string, e: FileEdit)
    requires !Contains(x, CLOSE) && ParseSingleBlock(Trim(x + "\n")) == Parsed(e)
    ensures Edits(OPEN + (x + "\n") + CLOSE) == Parsed([e])
  {
    ScanAlone(x);
    OneBlock(OPEN + (x + "\n") + CLOSE, Trim(x + "\n"), "", e);
  }

  lemma WrapUncut(a: string, target: string, content: string)
    requires GoodPath(target) && !Contains(content, CLOSE) && !Contains(a, CLOSE)
    requires ParseSingleBlock(Trim(a + "\n" + content + "\n")) == Parsed(Create(target, TrimEnd(content)))
    ensures Edits(OPEN + ((a + "\n" + content) + "\n") + CLOSE) == Parsed([Create(target, TrimEnd(content))])
  {
    NoCloseAcross(a, content);
    ParsesAlone(a + "\n" + content, Create(target, TrimEnd(content)));
  }

  lemma WrapCut(target: string, content: string, i: nat)
    requires GoodPath(target) && !Contains(content, OPEN) && Find(content, CLOSE) == Some(i)
    ensures Edits(Print(Create(target, content))) == Parsed([Create(target, TrimEnd(content[..i]))])
  {
    var a, cut, rest := "CREATE " + target, content[..i], content[i + 3..] + "\n" + CLOSE;
    var text := a + "\n" + cut;
    NoCloseInHeader("CREATE ", target);
    CutIsOpenEnded(content, i);
    NoCloseAcross(a, cut + ">>");
    assert text + ">>" == a + "\n" + (cut + ">>");
    NothingOpens();
    GoodProseMeans("");
    ScanMarked("", text, rest);
    CutText(a, content, i);
    WrapParses(target, cut, "");
    assert text + "" == text;
    NoOpenAfter(content, i);
    OneBlock(Print(Create(target, content)), Trim(text), rest, Create(target, TrimEnd(cut)));
  }

  lemma CutText(a: string, content: string, i: nat)
    requires OccursAt(content, CLOSE, i)
    ensures OPEN + ((a + "\n" + content) + "\n") + CLOSE
         == "" + OPEN + ((a + "\n" + content[..i]) + CLOSE + (content[i + 3..] + "\n" + CLOSE))
  {
    assert content == content[..i] + CLOSE + content[i + 3..];
  }

  /** The wrapper always yields exactly one CREATE, of the text before the answer's first ">>>". */
  lemma WrapResult(target: string, content: string)
    requires GoodPath(target) && !Contains(content, OPEN)
    ensures Edits(Print(Create(target, content))) == Parsed([Create(target, Kept(content))])
  {
    match Find(content, CLOSE) {
      case None =>
        NoCloseInHeader("CREATE ", target);
        WrapParses(target, content, "\n");
        WrapUncut("CREATE " + target, target, content);
      case Some(i) => WrapCut(target, content, i);
    }
  }

  /** What is written out is the answer itself exactly when the target is a trimmed single line without ">>>" and the
      answer has no ">>>" and no trailing whitespace. */
  lemma WrapIsFaithfulIff(target: string, content: string)
    ensures Edits(Print(Create(target, content))) == Parsed([Create(target, content)]) <==>
              GoodPath(target) && !Contains(content, CLOSE) && (content == "" || EndsSolid(content))
  {
    var e := Create(target, content);
    NothingOpens();
    GoodProseMeans("");
    RoundTripIff(["", ""], [e]);
    assert ["", ""][1..] == [""] && [e][1..] == [];
    assert Document([""], []) == "";
    assert "" + Print(e) + "" == Print(e);
    assert e in [e];
  }

  lemma {:induction false} FirstMissingIsFirst(files: seq<string>, present: string -> bool)
    ensures FirstMissing(files, present).None? <==> forall f :: f in files ==> present(f)
    ensures FirstMissing(files, present).Some? ==>
              exists i :: 0 <= i < |files| && files[i] == FirstMissing(files, present).value && !present(files[i]) &&
                forall j :: 0 <= j < i ==> present(files[j])
    decreases |files|
  {
    if files != [] {
      assert files == [files[0]] + files[1..];
      FirstMissingIsFirst(files[1..], present);
      if present(files[0]) {
        if FirstMissing(files, present).Some? {
          var i :| 0 <= i < |files[1..]| && files[1..][i] == FirstMissing(files, present).value &&
            !present(files[1..][i]) && forall j :: 0 <= j < i ==> present(files[1..][j]);
          assert files[i + 1] == files[1..][i];
          forall j | 0 <= j < i + 1 ensures present(files[j]) { if j > 0 { assert files[j] == files[1..][j - 1]; } }
        }
      } else {
        assert files[0] == FirstMissing(files, present).value;
      }
    }
  }

  /** When an answer is wrapped at all, for which file, and when it is written out whole. */
  lemma AutoWrapIff(content: string, files: seq<string>, present: string -> bool)
    ensures FirstMissing(files, present).None? <==> forall f :: f in files ==> present(f)
    ensures FirstMissing(files, present).Some? ==>
              FirstMissing(files, present).value in files && !present(FirstMissing(files, present).value)
    ensures var r, target := TryAutoWrap(content, files, present), FirstMissing(files, present);
            if content == "" || Contains(content, OPEN) || LooksConversational(content) || target.None? then
              r == Parsed([])
            else
              && (r == Parsed([Create(target.value, content)]) <==> WellFormed(Create(target.value, content)))
              && (GoodPath(target.value) ==> r == Parsed([Create(target.value, Kept(content))]))
  {
    var target := FirstMissing(files, present);
    FirstMissingIsFirst(files, present);
    if content != "" && !Contains(content, OPEN) && target.Some? {
      WrapIsFaithfulIff(target.value, content);
      if GoodPath(target.value) { WrapResult(target.value, content); }
    }
  }
}
