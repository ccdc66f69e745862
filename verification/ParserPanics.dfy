/** The slice in `parse_edit_block` whose bounds can cross: which blocks and which responses stop the parser. */
module ParserPanics {
  import opened Wrappers
  import opened Text
  import opened EditParser
  import opened EditRoundTrip

  /** An EDIT block stops the parser exactly when it has both markers and the first NEW precedes the first
      OLD; the markers cannot overlap. */
  lemma PanicIff(path: string, body: string)
    ensures ParseEditBlock(path, body).Panicked? <==>
              Find(body, OLD).Some? && Find(body, NEW).Some? && Find(body, NEW).value < Find(body, OLD).value
  {
    if Find(body, OLD).Some? && Find(body, NEW).Some? {
      MarkersApart(body, Find(body, OLD).value, Find(body, NEW).value);
    }
  }

  lemma CharOf(s: string, p: string, i: nat, k: nat)
    requires OccursAt(s, p, i) && k < |p|
    ensures s[i + k] == p[k]
  {
    assert s[i..i + |p|][k] == s[i + k];
  }

  lemma MarkersApart(body: string, o: nat, n: nat)
    requires OccursAt(body, OLD, o) && OccursAt(body, NEW, n)
    ensures n < o || o + 7 <= n
  {
    if o <= n < o + 7 {
      CharOf(body, OLD, o, n - o);    // must be '-', so n - o is at most 2
      CharOf(body, NEW, n, 0);
      CharOf(body, OLD, o, 3);        // a blank, where NEW has '-' or ' '
      if n - o < 3 { CharOf(body, NEW, n, 3 - (n - o)); }
      CharOf(body, OLD, o, 4);
      CharOf(body, NEW, n, 4);
    }
  }

  /** An EDIT block that has both markers, the first NEW before the first OLD. */
  predicate OutOfOrder(block: string)
  {
    var body := Body(block);
    && HasPrefix(Header(block), "EDIT ") && Find(body, OLD).Some? && Find(body, NEW).Some?
    && Find(body, NEW).value < Find(body, OLD).value
  }

  lemma BlockPanicIff(block: string)
    ensures ParseSingleBlock(block).Panicked? <==> OutOfOrder(block)
  {
    PanicIff(Trim(if |Header(block)| >= 5 then Header(block)[5..] else ""), Body(block));
  }

  /** Block `i` is reached, and is out of order. */
  predicate StopsAt(blocks: seq<string>, i: nat)
  {
    i < |blocks| && OutOfOrder(blocks[i]) && ParseAll(blocks[..i]).Parsed?
  }

  lemma StopsLater(blocks: seq<string>, i: nat)
    requires blocks != [] && ParseSingleBlock(blocks[0]).Parsed?
    ensures StopsAt(blocks, i + 1) <==> StopsAt(blocks[1..], i)
  {
    if i < |blocks| - 1 {
      assert blocks[..i + 1][1..] == blocks[1..][..i] && blocks[..i + 1][0] == blocks[0];
    }
  }

  /** A list of blocks stops the parser exactly when one of them is out of order and all before it parse. */
  lemma {:induction false} BlocksPanicIff(blocks: seq<string>)
    ensures ParseAll(blocks).Panicked? <==> exists i: nat :: StopsAt(blocks, i)
    decreases |blocks|
  {
    if blocks != [] {
      BlockPanicIff(blocks[0]);
      assert blocks[..0] == [];
      match ParseSingleBlock(blocks[0]) {
        case Panicked => assert StopsAt(blocks, 0);
        case Failed(_) => forall i: nat ensures !StopsAt(blocks, i) { NotPastFailure(blocks, i); }
        case Parsed(_) =>
          BlocksPanicIff(blocks[1..]);
          if i: nat :| StopsAt(blocks[1..], i) { StopsLater(blocks, i); }
          if i: nat :| StopsAt(blocks, i) { StopsLater(blocks, i - 1); }
      }
    }
  }

  lemma NotPastFailure(blocks: seq<string>, i: nat)
    requires blocks != [] && ParseSingleBlock(blocks[0]).Failed?
    ensures !StopsAt(blocks, i)
  {
    BlockPanicIff(blocks[0]);
    if 0 < i < |blocks| { assert blocks[..i][0] == blocks[0]; }
  }

  /** A response stops the parser exactly when it has an out-of-order EDIT block and every closed block before it
      parses; the unclosed block at the end counts like any other. */
  lemma ResponsePanicIff(s: string)
    ensures Edits(s).Panicked? <==>
              || (exists i: nat :: StopsAt(Blocks(s), i))
              || (ParseAll(Blocks(s)).Parsed? && OpenTail(s).Some? && OutOfOrder(OpenTail(s).value))
  {
    BlocksPanicIff(Blocks(s));
    TailPanicIff(OpenTail(s));
    EitherPanics(s, ParseAll(Blocks(s)), Salvage(OpenTail(s)));
  }

  lemma TailPanicIff(tail: Option<string>)
    ensures Salvage(tail).Panicked? <==> tail.Some? && OutOfOrder(tail.value)
  {
    if tail.Some? { BlockPanicIff(tail.value); }
  }

  lemma EitherPanics(s: string, closed: Outcome<seq<FileEdit>>, salvaged: Outcome<seq<FileEdit>>)
    requires closed == ParseAll(Blocks(s)) && salvaged == Salvage(OpenTail(s))
    ensures Edits(s).Panicked? <==> closed.Panicked? || (closed.Parsed? && salvaged.Panicked?)
  {
  }

  const SWAPPED := NEW + "\n" + OLD

  lemma SwappedIsOutOfOrder()
    ensures Find(SWAPPED, NEW) == Some(0) && Find(SWAPPED, OLD).Some? && Find(SWAPPED, OLD).value > 0
  {
    assert SWAPPED[0..7] == NEW && SWAPPED[8..15] == OLD;
    assert OccursAt(SWAPPED, OLD, 8) && OccursAt(SWAPPED, NEW, 0);
    assert !OccursAt(SWAPPED, OLD, 0) by { assert NEW[4] != OLD[4]; }
    FindIsFirst(SWAPPED, NEW, 0);
  }

  /** Such a response, for any path: an edit whose halves are swapped. */
  lemma SwappedHalvesPanic(path: string)
    requires GoodPath(path)
    ensures Edits(OPEN + ("EDIT " + path + "\n" + SWAPPED + "\n") + CLOSE).Panicked?
  {
    var a := "EDIT " + path;
    var text := a + "\n" + SWAPPED;
    NoCloseInHeader("EDIT ", path);
    NoMarkInMarks();
    NoCloseAcross(NEW, OLD);
    NoCloseAcross(a, SWAPPED);
    NothingOpens();
    GoodProseMeans("");
    ScanText("", text, "");
    var s := OPEN + (text + "\n") + CLOSE;
    assert "" + s + "" == s;
    SolidEnds("EDIT ", path);
    TrimBlock(a, SWAPPED);
    HeaderAndBody(a, SWAPPED);
    ReadEdit(text, path, SWAPPED);
    SwappedIsOutOfOrder();
    PanicIff(path, SWAPPED);
    EditsStep(s);
  }
}
