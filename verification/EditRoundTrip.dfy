/** Printing edits as blocks and parsing the text back, with the exact conditions under which it is the
    identity; and the CREATE block the agent wraps around a bare answer. */
module EditRoundTrip {
  import opened Wrappers
  import opened Text
  import opened EditParser

  /** The text between the markers, as the prompts ask for it. */
  function BlockText(e: FileEdit): string
  {
    match e
    case Edit(path, o, n) => "EDIT " + path + "\n" + (OLD + "\n" + o + "\n" + NEW + "\n" + n)
    case Create(path, content) => "CREATE " + path + "\n" + content
    case Delete(path) => "DELETE " + path
  }

  function Print(e: FileEdit): string { OPEN + (BlockText(e) + "\n") + CLOSE }

  ghost predicate GoodPath(path: string)
  {
    StartsSolid(path) && EndsSolid(path) && '\n' !in path && !Contains(path, CLOSE)
  }

  ghost predicate WellFormed(e: FileEdit)
  {
    GoodPath(e.path) &&
    match e
    case Edit(_, o, n) => Trimmed(o) && !Contains(o, CLOSE) && !Contains(o, NEW) && Trimmed(n) && !Contains(n, CLOSE)
    case Create(_, content) => (content == "" || EndsSolid(content)) && !Contains(content, CLOSE)
    case Delete(_) => true
  }

  // ------------------------------------------------------------------ a printed block parses back

  lemma FindNewline(a: string, b: string)
    requires '\n' !in a
    ensures Find(a + "\n" + b, "\n") == Some(|a|)
  {
    FindAfter(a, "\n", b);
    if i :| OccursAt(a + "", "\n", i) { OccurrenceCovers(a, "\n", i, i); }
    assert a + "\n"[..0] == a;
  }

  lemma HeaderAndBody(a: string, b: string)
    requires '\n' !in a && Trimmed(a)
    ensures Header(a) == a && Body(a) == ""
    ensures Header(a + "\n" + b) == a && Body(a + "\n" + b) == b
  {
    if i :| OccursAt(a, "\n", i) { OccurrenceCovers(a, "\n", i, i); }
    assert a[..|a|] == a;
    FindNewline(a, b);
    var block := a + "\n" + b;
    assert block[..|a|] == a && block[|a| + 1..] == b;
  }

  lemma SolidEnds(a: string, b: string)
    requires EndsSolid(b)
    ensures TrimEnd(a + b) == a + b && EndsSolid(a + b)
  {
  }

  lemma ReadCreate(block: string, path: string, body: string)
    requires Header(block) == "CREATE " + path && Body(block) == body && Trimmed(path)
    ensures ParseSingleBlock(block) == Parsed(Create(path, body))
  {
    assert Header(block)[0] == 'C' && Header(block)[7..] == path;
    TrimOfTrimmed(path);
  }

  lemma ReadDelete(block: string, path: string)
    requires Header(block) == "DELETE " + path && Trimmed(path)
    ensures ParseSingleBlock(block) == Parsed(Delete(path))
  {
    assert Header(block)[0] == 'D' && Header(block)[7..] == path;
    TrimOfTrimmed(path);
  }

  lemma ReadEdit(block: string, path: string, body: string)
    requires Header(block) == "EDIT " + path && Body(block) == body && Trimmed(path)
    ensures ParseSingleBlock(block) == ParseEditBlock(path, body)
  {
    assert Header(block)[5..] == path;
    TrimOfTrimmed(path);
  }

  /** What trimming leaves of a header line and the lines after it. */
  lemma TrimBlock(a: string, b: string)
    requires StartsSolid(a) && EndsSolid(a) && (b == "" || EndsSolid(b))
    ensures Trim(a + "\n" + b + "\n") == if b == "" then a else a + "\n" + b
  {
    var rest := "\n" + b + "\n";
    assert a + "\n" + b + "\n" == a + rest;
    TrimSolidStart(a, rest);
    if b != "" {
      assert !IsSpace(rest[|b|]);
      TrimEndConcat("\n" + b, "\n");
      SolidEnds("\n", b);
    }
  }

  lemma CreateBack(path: string, content: string)
    requires WellFormed(Create(path, content))
    ensures ParseSingleBlock(Trim(BlockText(Create(path, content)) + "\n")) == Parsed(Create(path, content))
  {
    var a := "CREATE " + path;
    SolidEnds("CREATE ", path);
    TrimBlock(a, content);
    HeaderAndBody(a, content);
    ReadCreate(if content == "" then a else a + "\n" + content, path, content);
  }

  lemma DeleteBack(path: string)
    requires GoodPath(path)
    ensures ParseSingleBlock(Trim(BlockText(Delete(path)) + "\n")) == Parsed(Delete(path))
  {
    var a := "DELETE " + path;
    SolidEnds("DELETE ", path);
    TrimSolidStart(a, "\n");
    HeaderAndBody(a, "");
    ReadDelete(a, path);
  }

  /** The body of a printed EDIT block after trimming. */
  function EditBody(o: string, n: string): string
  {
    if n == "" then OLD + "\n" + o + "\n" + NEW else OLD + "\n" + o + "\n" + NEW + "\n" + n
  }

  lemma FirstOld(o: string, n: string)
    ensures Find(EditBody(o, n), OLD) == Some(0)
  {
    assert EditBody(o, n)[0..7] == OLD;
    FindIsFirst(EditBody(o, n), OLD, 0);
  }

  lemma NoNewBefore(o: string)
    requires !Contains(o, NEW)
    ensures !Contains(OLD + "\n" + o + "\n" + "--- NE", NEW)
  {
    assert !OccursAt(OLD, NEW, 0) by { assert OLD[0..7][4] != NEW[4]; }
    NoStraddle(OLD, '\n', o, NEW);
    NoStraddle(OLD + "\n" + o, '\n', "--- NE", NEW);
  }

  lemma FirstNew(o: string, n: string)
    requires !Contains(o, NEW)
    ensures Find(EditBody(o, n), NEW) == Some(9 + |o|)
  {
    var head := OLD + "\n" + o + "\n";
    NoNewBefore(o);
    assert NEW[..6] == "--- NE";
    FindAfter(head, NEW, AfterNew(n));
    EditBodySplit(o, n);
  }

  function AfterNew(n: string): string { if n == "" then "" else "\n" + n }

  lemma EditBodySplit(o: string, n: string)
    ensures EditBody(o, n) == OLD + "\n" + o + "\n" + NEW + AfterNew(n)
  {
    assert OLD + "\n" + o + "\n" + NEW + "\n" + n == OLD + "\n" + o + "\n" + NEW + ("\n" + n);
  }

  lemma TrimLine(s: string)
    requires Trimmed(s)
    ensures Trim("\n" + s + "\n") == s && Trim("\n" + s) == s
  {
    TrimBlankAround("\n", s, "\n");
    TrimBlankAround("\n", s, "");
    assert "\n" + s + "" == "\n" + s;
    TrimOfTrimmed(s);
  }

  lemma MiddleAndEnd(a: string, m: string, b: string, c: string)
    ensures (a + m + b + c)[|a|..|a| + |m|] == m && (a + m + b + c)[|a| + |m| + |b|..] == c
  {
  }

  lemma EditBodyParts(o: string, n: string)
    ensures |EditBody(o, n)| >= 16 + |o|
    ensures EditBody(o, n)[7..9 + |o|] == "\n" + o + "\n" && EditBody(o, n)[16 + |o|..] == AfterNew(n)
  {
    EditBodySplit(o, n);
    MiddleAndEnd(OLD, "\n" + o + "\n", NEW, AfterNew(n));
    assert OLD + ("\n" + o + "\n") + NEW + AfterNew(n) == OLD + "\n" + o + "\n" + NEW + AfterNew(n);
  }

  lemma EditBodyBack(path: string, o: string, n: string)
    requires Trimmed(o) && Trimmed(n) && !Contains(o, NEW)
    ensures ParseEditBlock(path, EditBody(o, n)) == Parsed(Edit(path, o, n))
  {
    FirstOld(o, n);
    FirstNew(o, n);
    EditBodyParts(o, n);
    TrimLine(o);
    TrimLine(n);
  }

  lemma EditBodySolid(o: string, n: string)
    requires Trimmed(n)
    ensures EndsSolid(EditBody(o, n))
  {
    var head := OLD + "\n" + o + "\n" + NEW;
    if n != "" { SolidEnds(head + "\n", n); }
  }

  lemma EditTextTrims(path: string, o: string, n: string)
    requires GoodPath(path) && Trimmed(n)
    ensures Trim(BlockText(Edit(path, o, n)) + "\n") == "EDIT " + path + "\n" + EditBody(o, n)
  {
    var a := "EDIT " + path;
    SolidEnds("EDIT ", path);
    EditBodySolid(o, n);
    var body := EditBody(o, n);
    TrimBlock(a, body);
    var s := a + "\n" + body + "\n";
    if n == "" {
      TrimBlankAround("", s, "\n");
      assert BlockText(Edit(path, o, n)) == a + "\n" + (body + "\n" + n);
      assert a + "\n" + (body + "\n" + n) + "\n" == "" + s + "\n";
    } else {
      assert BlockText(Edit(path, o, n)) == a + "\n" + body;
    }
  }

  lemma EditBack(path: string, o: string, n: string)
    requires WellFormed(Edit(path, o, n))
    ensures ParseSingleBlock(Trim(BlockText(Edit(path, o, n)) + "\n")) == Parsed(Edit(path, o, n))
  {
    var a, body := "EDIT " + path, EditBody(o, n);
    SolidEnds("EDIT ", path);
    EditTextTrims(path, o, n);
    HeaderAndBody(a, body);
    ReadEdit(a + "\n" + body, path, body);
    EditBodyBack(path, o, n);
  }

  lemma BlockBack(e: FileEdit)
    requires WellFormed(e)
    ensures ParseSingleBlock(Trim(BlockText(e) + "\n")) == Parsed(e)
  {
    match e {
      case Edit(path, o, n) => EditBack(path, o, n);
      case Create(path, content) => CreateBack(path, content);
      case Delete(path) => DeleteBack(path);
    }
  }

  // ------------------------------------------------------------------ the scanner finds printed blocks

  /** Prose that a following block marker cannot merge with: no "<<<", and no '<' at its end. */
  ghost predicate GoodProse(prose: string) { !Contains(prose + "<<", OPEN) }

  lemma GoodProseMeans(prose: string)
    ensures GoodProse(prose) <==> !Contains(prose, OPEN) && (prose == "" || prose[|prose| - 1] != '<')
  {
    var s := prose + "<<";
    if Contains(prose, OPEN) { ContainsConcat(prose, "<<", OPEN); }
    if prose != "" && prose[|prose| - 1] == '<' {
      assert s[|prose| - 1..|prose| + 2] == OPEN;
      assert OccursAt(s, OPEN, |prose| - 1);
    }
    if i :| OccursAt(s, OPEN, i) {
      assert s[i..i + 3][0] == s[i];
      if i + 3 <= |prose| {
        assert prose[i..i + 3] == s[i..i + 3];
        assert OccursAt(prose, OPEN, i);
      } else if i == |prose| - 2 {
        assert s[i..i + 3][1] == s[i + 1];
      }
    }
  }

  lemma NoCloseAcross(a: string, b: string)
    requires !Contains(a, CLOSE) && !Contains(b, CLOSE)
    ensures !Contains(a + "\n" + b, CLOSE)
  {
    NoStraddle(a, '\n', b, CLOSE);
  }

  lemma NoCloseInHeader(word: string, path: string)
    requires |word| > 0 && word[|word| - 1] == ' ' && (forall i :: 0 <= i < |word| ==> word[i] != '>')
    requires !Contains(path, CLOSE)
    ensures !Contains(word + path, CLOSE)
  {
    var w := word[..|word| - 1];
    NoStraddle(w, ' ', path, CLOSE);
    if i :| OccursAt(w, CLOSE, i) { OccurrenceCovers(w, CLOSE, i, i); }
    assert word + path == w + [' '] + path;
  }

  lemma NoCloseInText(e: FileEdit)
    requires WellFormed(e)
    ensures !Contains(BlockText(e), CLOSE)
  {
    match e {
      case Delete(path) => NoCloseInHeader("DELETE ", path);
      case Create(path, content) =>
        NoCloseInHeader("CREATE ", path);
        NoCloseAcross("CREATE " + path, content);
      case Edit(path, o, n) =>
        NoCloseInHeader("EDIT ", path);
        NoMarkInMarks();
        NoCloseAcross(OLD, o);
        NoCloseAcross(OLD + "\n" + o, NEW);
        NoCloseAcross(OLD + "\n" + o + "\n" + NEW, n);
        NoCloseAcross("EDIT " + path, OLD + "\n" + o + "\n" + NEW + "\n" + n);
    }
  }

  lemma NoMarkInMarks()
    ensures !Contains(OLD, CLOSE) && !Contains(NEW, CLOSE)
  {
    NoSuchChar(OLD, CLOSE);
    NoSuchChar(NEW, CLOSE);
  }

  lemma NoSuchChar(s: string, p: string)
    requires p != "" && p[0] !in s
    ensures !Contains(s, p)
  {
    forall i ensures !OccursAt(s, p, i) {
      if 0 <= i && i + |p| <= |s| { assert s[i..i + |p|][0] == s[i]; }
    }
  }

  lemma FindsClose(text: string, rest: string)
    requires !Contains(text + ">>", CLOSE)
    ensures Find(text + CLOSE + rest, CLOSE) == Some(|text|)
  {
    assert CLOSE[..2] == ">>";
    FindAfter(text, CLOSE, rest);
  }

  lemma FindsOpen(prose: string, tail: string)
    ensures Find(prose + OPEN + tail, OPEN) == Some(|prose|) <==> GoodProse(prose)
  {
    assert OPEN[..2] == "<<";
    FindAfter(prose, OPEN, tail);
  }

  lemma ScanMarked(prose: string, text: string, rest: string)
    requires GoodProse(prose) && !Contains(text + ">>", CLOSE)
    ensures NextBlock(prose + OPEN + (text + CLOSE + rest)) == Closed(Trim(text), rest)
  {
    var tail := text + CLOSE + rest;
    var s := prose + OPEN + tail;
    FindsOpen(prose, tail);
    FindsClose(text, rest);
    assert s[|prose| + 3..] == tail;
    assert tail[..|text|] == text && tail[|text| + 3..] == rest;
  }

  lemma RegroupMarked(prose: string, text: string, rest: string)
    ensures prose + (OPEN + text + CLOSE) + rest == prose + OPEN + (text + CLOSE + rest)
  {
  }

  lemma ScanText(prose: string, x: string, rest: string)
    requires GoodProse(prose) && !Contains(x, CLOSE)
    ensures NextBlock(prose + (OPEN + (x + "\n") + CLOSE) + rest) == Closed(Trim(x + "\n"), rest)
  {
    NoCloseAcross(x, ">>");
    ScanMarked(prose, x + "\n", rest);
    RegroupMarked(prose, x + "\n", rest);
  }

  lemma ScanPrinted(prose: string, e: FileEdit, rest: string)
    requires GoodProse(prose) && WellFormed(e)
    ensures NextBlock(prose + Print(e) + rest) == Closed(Trim(BlockText(e) + "\n"), rest)
  {
    NoCloseInText(e);
    ScanText(prose, BlockText(e), rest);
  }

  /** prose 0, block 0, prose 1, ..., block n - 1, prose n */
  function Document(prose: seq<string>, edits: seq<FileEdit>): string
    requires |prose| == |edits| + 1
  {
    if edits == [] then prose[0] else prose[0] + Print(edits[0]) + Document(prose[1..], edits[1..])
  }

  ghost predicate ProseFits(prose: seq<string>, n: nat)
    requires |prose| == n + 1
  {
    (forall i :: 0 <= i < n ==> GoodProse(prose[i])) && !Contains(prose[n], OPEN)
  }

  lemma OneMore(s: string, block: string, rest: string, e: FileEdit, more: seq<FileEdit>)
    requires NextBlock(s) == Closed(block, rest) && ParseSingleBlock(block) == Parsed(e) && Edits(rest) == Parsed(more)
    ensures Edits(s) == Parsed([e] + more)
  {
    PrefixedNothing(Edits(s));
    ReadEditBlock(Edits(s), [], s, block, rest);
    assert [] + [e] == [e];
  }

  lemma NoMore(s: string)
    requires NextBlock(s) == Nothing
    ensures Edits(s) == Parsed([])
  {
    EditsStep(s);
  }

  lemma PrintedFirst(prose: string, e: FileEdit, rest: string, more: seq<FileEdit>)
    requires GoodProse(prose) && WellFormed(e) && Edits(rest) == Parsed(more)
    ensures Edits(prose + Print(e) + rest) == Parsed([e] + more)
  {
    ScanPrinted(prose, e, rest);
    BlockBack(e);
    OneMore(prose + Print(e) + rest, Trim(BlockText(e) + "\n"), rest, e, more);
  }

  lemma {:induction false} DocumentParses(prose: seq<string>, edits: seq<FileEdit>)
    requires |prose| == |edits| + 1 && ProseFits(prose, |edits|) && (forall e :: e in edits ==> WellFormed(e))
    ensures Edits(Document(prose, edits)) == Parsed(edits)
    decreases |edits|
  {
    if edits == [] {
      NoMore(prose[0]);
    } else {
      var e, rest := edits[0], Document(prose[1..], edits[1..]);
      DocumentParses(prose[1..], edits[1..]);
      PrintedFirst(prose[0], e, rest, edits[1..]);
      assert [e] + edits[1..] == edits;
    }
  }

  // ------------------------------------------------------------------ what parses is well formed

  lemma SliceWithout(s: string, i: nat, j: nat, p: string)
    requires i <= j <= |s| && !Contains(s, p)
    ensures !Contains(s[i..j], p)
  {
    if Contains(s[i..j], p) { ContainsSlice(s, p, i, j); }
  }

  lemma TrimWithout(s: string, p: string)
    requires !Contains(s, p)
    ensures !Contains(Trim(s), p) && Trimmed(Trim(s))
  {
    var i, j := TrimShape(s);
    SliceWithout(s, i, j, p);
  }

  lemma TrimNonBlank(s: string)
    requires EndsSolid(s)
    ensures StartsSolid(Trim(s)) && EndsSolid(Trim(s))
  {
    var _, _ := TrimShape(s);
    assert !IsBlank(s) by { assert !IsSpace(s[|s| - 1]); }
  }

  lemma HeaderFacts(block: string)
    requires !Contains(block, CLOSE)
    ensures Trimmed(Header(block)) && '\n' !in Header(block) && !Contains(Header(block), CLOSE)
  {
    var n := HeaderEnd(block);
    SliceWithout(block, 0, n, CLOSE);
    assert block[0..n] == block[..n];
    TrimWithout(block[..n], CLOSE);
    forall k | 0 <= k < n ensures block[k] != '\n' {
      assert !OccursAt(block, "\n", k);
      assert block[k..k + 1] == [block[k]];
    }
    var i, j := TrimShape(block[..n]);
  }

  lemma PathIsGood(header: string, k: nat)
    requires Trimmed(header) && '\n' !in header && !Contains(header, CLOSE)
    requires 1 <= k <= |header| && header[k - 1] == ' '
    ensures GoodPath(Trim(header[k..]))
  {
    assert header[k..|header|] == header[k..];
    SliceWithout(header, k, |header|, CLOSE);
    TrimWithout(header[k..], CLOSE);
    TrimNonBlank(header[k..]);
    var i, j := TrimShape(header[k..]);
  }

  lemma BodyFacts(block: string)
    requires Trimmed(block) && !Contains(block, CLOSE)
    ensures !Contains(Body(block), CLOSE) && (Body(block) == "" || EndsSolid(Body(block)))
  {
    var n := HeaderEnd(block);
    if n < |block| {
      SliceWithout(block, n + 1, |block|, CLOSE);
      assert block[n + 1..|block|] == block[n + 1..];
    } else {
      SliceWithout(block, 0, 0, CLOSE);
    }
  }

  lemma NoNewBetween(body: string, i: nat, n: nat)
    requires Find(body, NEW) == Some(n) && i <= n
    ensures !Contains(body[i..n], NEW)
  {
    BeforeFirst(body, NEW);
    SliceWithout(body[..n], i, n, NEW);
    assert body[..n][i..n] == body[i..n];
  }

  lemma SliceTrims(s: string, i: nat, j: nat, p: string)
    requires i <= j <= |s| && !Contains(s, p)
    ensures Trimmed(Trim(s[i..j])) && !Contains(Trim(s[i..j]), p)
  {
    SliceWithout(s, i, j, p);
    TrimWithout(s[i..j], p);
  }

  lemma OldIsGood(body: string, i: nat, n: nat)
    requires Find(body, NEW) == Some(n) && i <= n && !Contains(body, CLOSE)
    ensures var o := Trim(body[i..n]); Trimmed(o) && !Contains(o, CLOSE) && !Contains(o, NEW)
  {
    SliceTrims(body, i, n, CLOSE);
    NoNewBetween(body, i, n);
    TrimWithout(body[i..n], NEW);
  }

  lemma EditBlockWellFormed(path: string, body: string)
    requires GoodPath(path) && !Contains(body, CLOSE) && ParseEditBlock(path, body).Parsed?
    ensures WellFormed(ParseEditBlock(path, body).value)
  {
    var o, n := Find(body, OLD).value, Find(body, NEW).value;
    OldIsGood(body, o + 7, n);
    SliceTrims(body, n + 7, |body|, CLOSE);
    assert body[n + 7..|body|] == body[n + 7..];
  }

  lemma ParsedIsWellFormed(block: string)
    requires Trimmed(block) && !Contains(block, CLOSE) && ParseSingleBlock(block).Parsed?
    ensures WellFormed(ParseSingleBlock(block).value)
  {
    var header := Header(block);
    HeaderFacts(block);
    BodyFacts(block);
    if HasPrefix(header, "EDIT ") {
      assert header[4] == "EDIT "[4];
      PathIsGood(header, 5);
      EditBlockWellFormed(Trim(header[5..]), Body(block));
    } else {
      assert header[6] == ' ';
      PathIsGood(header, 7);
    }
  }

  lemma BeforeFirst(t: string, p: string)
    requires p != "" && Find(t, p).Some?
    ensures !Contains(t[..Find(t, p).value], p)
  {
    var j := Find(t, p).value;
    forall i ensures !OccursAt(t[..j], p, i) {
      if 0 <= i && i + |p| <= j {
        assert t[..j][i..i + |p|] == t[i..i + |p|];
        assert !OccursAt(t, p, i);
      }
    }
  }

  lemma ScannedIsClean(s: string)
    ensures NextBlock(s).Closed? ==> Trimmed(NextBlock(s).block) && !Contains(NextBlock(s).block, CLOSE)
    ensures NextBlock(s).Unclosed? ==> Trimmed(NextBlock(s).tail) && !Contains(NextBlock(s).tail, CLOSE)
  {
    if Find(s, OPEN).Some? {
      var t := s[Find(s, OPEN).value + 3..];
      if Find(t, CLOSE).Some? {
        BeforeFirst(t, CLOSE);
        TrimWithout(t[..Find(t, CLOSE).value], CLOSE);
      } else {
        TrimWithout(t, CLOSE);
      }
    }
  }

  /** Whatever response it is given, the parser only returns well-formed edits. */
  lemma {:induction false} EditsAreWellFormed(s: string)
    requires Edits(s).Parsed?
    ensures forall e :: e in Edits(s).value ==> WellFormed(e)
    decreases |s|
  {
    ScannedIsClean(s);
    EditsStep(s);
    match NextBlock(s) {
      case Nothing =>
      case Unclosed(tail) => if Salvage(Some(tail)) != Parsed([]) { ParsedIsWellFormed(tail); }
      case Closed(block, rest) =>
        ParsedIsWellFormed(block);
        EditsAreWellFormed(rest);
    }
  }

  // ------------------------------------------------------------------ prose that runs into a marker

  lemma HeaderStarts(block: string)
    requires StartsSolid(block)
    ensures Header(block) != "" && Header(block)[0] == block[0]
  {
    var n := HeaderEnd(block);
    assert n > 0 by { assert !OccursAt(block, "\n", 0) by { assert block[0..1][0] != '\n'; } }
    var line := block[..n];
    TrimStartConcat(line, "");
    assert line + "" == line;
    var i, j := TrimShape(line);
    assert line[0] == block[0] && !IsBlank(line);
  }

  lemma BlankHead(s: string, i: nat)
    requires 0 < i <= |s| && IsBlank(s[..i])
    ensures IsSpace(s[0])
  {
    assert s[..i][0] == s[0];
  }

  lemma TrimKeepsFirst(s: string)
    requires StartsSolid(s)
    ensures StartsSolid(Trim(s)) && Trim(s)[0] == s[0]
  {
    var i, j := TrimShape(s);
    if i > 0 { BlankHead(s, i); }
  }

  lemma LostBlock(prose: string, tail: string)
    requires !Contains(prose, OPEN) && !GoodProse(prose)
    ensures Edits(prose + OPEN + tail).Parsed? ==> Edits(prose + OPEN + tail).value == []
  {
    EarlyMarker(prose, tail);
    EditsStep(prose + OPEN + tail);
  }

  lemma NothingOpens()
    ensures !Contains("", OPEN)
  {
  }

  lemma EarlyMarker(prose: string, tail: string)
    requires !Contains(prose, OPEN) && !GoodProse(prose)
    ensures match NextBlock(prose + OPEN + tail)
            case Nothing => true
            case Unclosed(block) => ParseSingleBlock(block).Failed?
            case Closed(block, _) => ParseSingleBlock(block).Failed?
  {
    var s := prose + OPEN + tail;
    AfterEarlyMarker(prose, tail);
    var t := s[Find(s, OPEN).value + 3..];
    match Find(t, CLOSE) {
      case None => BadHeader(t);
      case Some(j) =>
        assert !OccursAt(t, CLOSE, 0) by { assert t[0] != CLOSE[0]; }
        BadHeader(t[..j]);
    }
  }

  /** The scanner then reads a block text that still starts with '<'. */
  lemma AfterEarlyMarker(prose: string, tail: string)
    requires !Contains(prose, OPEN) && !GoodProse(prose)
    ensures var s := prose + OPEN + tail;
            Find(s, OPEN).Some? && Find(s, OPEN).value + 3 < |s| && s[Find(s, OPEN).value + 3] == '<'
  {
    var s := prose + OPEN + tail;
    assert s == prose + (OPEN + tail);
    FindsOpen(prose, tail);
    assert s[|prose|..|prose| + 3] == OPEN;
    assert OccursAt(s, OPEN, |prose|);
    var i := Find(s, OPEN).value;
    if i + 3 > |prose| {
      assert s[i + 3] == OPEN[i + 3 - |prose|];
    } else {
      OccursInPrefix(prose, OPEN + tail, OPEN, i);
    }
  }

  lemma OccursInPrefix(a: string, b: string, p: string, i: nat)
    requires i + |p| <= |a| && OccursAt(a + b, p, i)
    ensures OccursAt(a, p, i)
  {
    assert a[i..i + |p|] == (a + b)[i..i + |p|];
  }

  lemma BadHeader(t: string)
    requires t != "" && t[0] == '<'
    ensures ParseSingleBlock(Trim(t)).Failed?
  {
    TrimKeepsFirst(t);
    HeaderStarts(Trim(t));
  }

  // ------------------------------------------------------------------ documents

  /** No prose opens a block of its own. */
  ghost predicate NoProseOpens(prose: seq<string>) { forall i :: 0 <= i < |prose| ==> !Contains(prose[i], OPEN) }

  ghost predicate GoodUpTo(prose: seq<string>, n: nat)
    requires n <= |prose|
  {
    forall i :: 0 <= i < n ==> GoodProse(prose[i])
  }

  lemma LostPrint(prose: string, e: FileEdit, rest: string)
    requires !Contains(prose, OPEN) && !GoodProse(prose)
    ensures Edits(prose + Print(e) + rest).Parsed? ==> Edits(prose + Print(e) + rest).value == []
  {
    var tail := (BlockText(e) + "\n") + CLOSE + rest;
    RegroupMarked(prose, BlockText(e) + "\n", rest);
    LostBlock(prose, tail);
  }

  /** A printed edit after good prose comes first in whatever the whole text parses to. */
  lemma FirstOfMore(prose: string, e: FileEdit, rest: string)
    requires GoodProse(prose) && WellFormed(e)
    ensures Edits(prose + Print(e) + rest) == Prefixed([e], Edits(rest))
  {
    ScanPrinted(prose, e, rest);
    BlockBack(e);
    EditsStep(prose + Print(e) + rest);
  }

  /** From the first bad prose on, the edits are not all read. */
  lemma {:induction false} DocumentLoses(prose: seq<string>, edits: seq<FileEdit>)
    requires |prose| == |edits| + 1 && NoProseOpens(prose) && !GoodUpTo(prose, |edits|)
    requires forall e :: e in edits ==> WellFormed(e)
    ensures Edits(Document(prose, edits)) != Parsed(edits)
    decreases |edits|
  {
    var e, rest := edits[0], Document(prose[1..], edits[1..]);
    if GoodProse(prose[0]) {
      var i :| 0 <= i < |edits| && !GoodProse(prose[i]);
      assert prose[1..][i - 1] == prose[i];
      DocumentLoses(prose[1..], edits[1..]);
      FirstOfMore(prose[0], e, rest);
      if Edits(rest).Parsed? { SameTail(e, Edits(rest).value, edits); }
    } else {
      LostPrint(prose[0], e, rest);
    }
  }

  lemma SameTail(e: FileEdit, more: seq<FileEdit>, edits: seq<FileEdit>)
    requires edits != [] && more != edits[1..]
    ensures [e] + more != edits
  {
    assert ([e] + more)[1..] == more;
  }

  /** Well-formed edits between pieces of prose that open no block themselves are all found, in order, if and only if
      no prose before a block ends in '<'. */
  lemma ProseIff(prose: seq<string>, edits: seq<FileEdit>)
    requires |prose| == |edits| + 1 && NoProseOpens(prose) && (forall e :: e in edits ==> WellFormed(e))
    ensures Edits(Document(prose, edits)) == Parsed(edits) <==> GoodUpTo(prose, |edits|)
  {
    if GoodUpTo(prose, |edits|) { DocumentParses(prose, edits); } else { DocumentLoses(prose, edits); }
  }

  /** A document of printed edits, with prose that opens no block itself, parses back to exactly those edits if and
      only if every edit is well formed and no prose before a block ends in '<'. */
  lemma RoundTripIff(prose: seq<string>, edits: seq<FileEdit>)
    requires |prose| == |edits| + 1 && NoProseOpens(prose)
    ensures Edits(Document(prose, edits)) == Parsed(edits) <==>
              (forall e :: e in edits ==> WellFormed(e)) && GoodUpTo(prose, |edits|)
  {
    if forall e :: e in edits ==> WellFormed(e) {
      ProseIff(prose, edits);
    } else if Edits(Document(prose, edits)) == Parsed(edits) {
      EditsAreWellFormed(Document(prose, edits));
    }
  }

  /** Parsing is idempotent through printing: what any response parses to, printed, parses to the same. */
  lemma ReprintIsStable(s: string, prose: seq<string>)
    requires Edits(s).Parsed? && |prose| == |Edits(s).value| + 1 && ProseFits(prose, |Edits(s).value|)
    ensures Edits(Document(prose, Edits(s).value)) == Edits(s)
  {
    EditsAreWellFormed(s);
    DocumentParses(prose, Edits(s).value);
  }
}
