/** The edit-block parser: a scanner for `<<<` ... `>>>` blocks, a parser for one block, and the parser of the wider
    set of action blocks. */
module EditParser {
  import opened Wrappers
  import opened Text
  import AgentBlocks

  datatype FileEdit =
    | Edit(path: string, oldText: string, newText: string)
    | Create(path: string, content: string)
    | Delete(path: string)

  datatype AgentAction =
    | Tool(name: string, params: string)
    | Apply(edit: FileEdit)
    | Agent(description: string, files: seq<string>, complexity: string)
    | Finish(summary: string)

  datatype ParseError =
    | UnknownBlock(header: string)
    | MissingOld(path: string)
    | MissingNew(path: string)

  /** A parse result; `Panicked` is an out-of-order slice, which stops the Rust thread. */
  datatype Outcome<+T> = Parsed(value: T) | Failed(error: ParseError) | Panicked

  const OPEN: string := "<<<"
  const CLOSE: string := ">>>"
  const OLD: string := "--- OLD"
  const NEW: string := "--- NEW"

  // ------------------------------------------------------------------ one block

  function HeaderEnd(block: string): (n: nat)
    ensures n <= |block|
  {
    match Find(block, "\n") case Some(i) => i case None => |block|
  }

  function Header(block: string): string { Trim(block[..HeaderEnd(block)]) }

  function Body(block: string): string
  {
    var n := HeaderEnd(block);
    if n < |block| then block[n + 1..] else ""
  }

  function ParseEditBlock(path: string, body: string): Outcome<FileEdit>
  {
    match Find(body, OLD)
    case None => Failed(MissingOld(path))
    case Some(o) =>
      match Find(body, NEW)
      case None => Failed(MissingNew(path))
      case Some(n) =>
        if o + |OLD| > n then Panicked   // `body[o + 7..n]`
        else Parsed(Edit(path, Trim(body[o + |OLD|..n]), Trim(body[n + |NEW|..])))
  }

  function ParseSingleBlock(block: string): Outcome<FileEdit>
  {
    var header := Header(block);
    if HasPrefix(header, "EDIT ") then ParseEditBlock(Trim(header[5..]), Body(block))
    else if HasPrefix(header, "CREATE ") then Parsed(Create(Trim(header[7..]), Body(block)))
    else if HasPrefix(header, "DELETE ") then Parsed(Delete(Trim(header[7..])))
    else Failed(UnknownBlock(header))
  }

  // ------------------------------------------------------------------ the scanner

  datatype Scan = Nothing | Unclosed(tail: string) | Closed(block: string, rest: string)

  /** The next block of the response. A closed block uses up at least its six marker characters. */
  function NextBlock(s: string): (r: Scan)
    ensures r.Closed? ==> |r.rest| + 6 <= |s|
  {
    match Find(s, OPEN)
    case None => Nothing
    case Some(i) =>
      var t := s[i + 3..];
      match Find(t, CLOSE)
      case None => Unclosed(Trim(t))
      case Some(j) => Closed(Trim(t[..j]), t[j + 3..])
  }

  lemma ScanUnclosed(all: string, pos: nat, s: string, start: nat)
    requires pos + 3 <= start <= |all| && s == all[pos..] && Find(s, OPEN) == Some(start - 3 - pos)
    requires Find(all[start..], CLOSE) == None
    ensures NextBlock(s) == Unclosed(Trim(all[start..]))
  {
    assert s[start - pos..] == all[start..];
  }

  lemma ScanClosed(all: string, pos: nat, s: string, start: nat, end: nat, block: string, rest: string)
    requires pos + 3 <= start <= end <= |all| - 3 && s == all[pos..] && Find(s, OPEN) == Some(start - 3 - pos)
    requires Find(all[start..], CLOSE) == Some(end - start)
    requires block == Trim(all[start..end]) && rest == all[end + 3..]
    ensures NextBlock(s) == Closed(block, rest)
  {
    var t := s[start - pos..];
    assert t == all[start..];
    assert t[..end - start] == all[start..end];
    assert t[end - start + 3..] == rest;
  }

  /** The closed blocks of a response, in order. */
  function Blocks(s: string): seq<string>
    decreases |s|
  {
    var b := NextBlock(s);
    if b.Closed? then [b.block] + Blocks(b.rest) else []
  }

  /** The block left open at the end, if any. */
  function OpenTail(s: string): Option<string>
    decreases |s|
  {
    match NextBlock(s)
    case Nothing => None
    case Unclosed(tail) => Some(tail)
    case Closed(_, rest) => OpenTail(rest)
  }

  /** All blocks parsed; the first that fails decides. */
  function ParseAll(blocks: seq<string>): Outcome<seq<FileEdit>>
  {
    if blocks == [] then Parsed([])
    else
      match ParseSingleBlock(blocks[0])
      case Failed(e) => Failed(e)
      case Panicked => Panicked
      case Parsed(edit) =>
        var rest := ParseAll(blocks[1..]);
        if rest.Parsed? then Parsed([edit] + rest.value) else rest
  }

  /** What an unclosed block contributes: its edit when it parses, nothing when it does not. */
  function Salvage(tail: Option<string>): Outcome<seq<FileEdit>>
  {
    match tail
    case None => Parsed([])
    case Some(block) =>
      if block == "" then Parsed([])
      else
        match ParseSingleBlock(block)
        case Parsed(edit) => Parsed([edit])
        case Failed(_) => Parsed([])
        case Panicked => Panicked
  }

  function Edits(s: string): Outcome<seq<FileEdit>>
  {
    var closed := ParseAll(Blocks(s));
    if !closed.Parsed? then closed
    else
      var salvaged := Salvage(OpenTail(s));
      if salvaged.Parsed? then Parsed(closed.value + salvaged.value) else salvaged
  }

  function Prefixed<T>(done: seq<T>, rest: Outcome<seq<T>>): Outcome<seq<T>>
  {
    if rest.Parsed? then Parsed(done + rest.value) else rest
  }

  lemma PrefixedNothing<T>(rest: Outcome<seq<T>>)
    ensures Prefixed([], rest) == rest
  {
    if rest.Parsed? { assert [] + rest.value == rest.value; }
  }

  lemma PrefixedAgain<T>(done: seq<T>, x: T, rest: Outcome<seq<T>>)
    ensures Prefixed(done, Prefixed([x], rest)) == Prefixed(done + [x], rest)
  {
    if rest.Parsed? { assert done + ([x] + rest.value) == done + [x] + rest.value; }
  }

  lemma EditsStep(s: string)
    ensures var b := NextBlock(s);
            Edits(s) == match b
                        case Nothing => Parsed([])
                        case Unclosed(tail) => Salvage(Some(tail))
                        case Closed(block, rest) =>
                          match ParseSingleBlock(block)
                          case Failed(e) => Failed(e)
                          case Panicked => Panicked
                          case Parsed(edit) => Prefixed([edit], Edits(rest))
  {
    var b := NextBlock(s);
    if b.Closed? {
      if ParseSingleBlock(b.block).Parsed? && Edits(b.rest).Parsed? {
        ConsConcat(ParseSingleBlock(b.block).value, ParseAll(Blocks(b.rest)).value, Salvage(OpenTail(b.rest)).value);
      }
    } else {
      PrefixedNothing(Salvage(OpenTail(s)));
    }
  }

  lemma ConsConcat(edit: FileEdit, closed: seq<FileEdit>, salvaged: seq<FileEdit>)
    ensures [edit] + closed + salvaged == [edit] + (closed + salvaged)
  {
  }

  /** The scanner's search for the next block from `pos` on, and where it goes on after it. */
  method FindBlock(response: string, pos: nat) returns (b: Scan, next: nat)
    requires pos <= |response|
    ensures b == NextBlock(response[pos..])
    ensures b.Closed? ==> pos < next <= |response| && b.rest == response[next..]
  {
    next := pos;
    var start := Find(response[pos..], OPEN);
    if start == None { return Nothing, next; }
    var blockStart := pos + start.value + 3;
    var end := Find(response[blockStart..], CLOSE);
    if end == None {
      ScanUnclosed(response, pos, response[pos..], blockStart);
      return Unclosed(Trim(response[blockStart..])), next;
    }
    var blockEnd := blockStart + end.value;
    next := blockEnd + 3;
    b := Closed(Trim(response[blockStart..blockEnd]), response[next..]);
    ScanClosed(response, pos, response[pos..], blockStart, blockEnd, b.block, b.rest);
  }

  /** The scanner's state: what it has, and what the rest of the response will add. */
  ghost predicate Reading<T>(all: Outcome<seq<T>>, done: seq<T>, rest: Outcome<seq<T>>) { Prefixed(done, rest) == all }

  lemma ReadEditBlock(all: Outcome<seq<FileEdit>>, done: seq<FileEdit>, s: string, block: string, rest: string)
    requires Reading(all, done, Edits(s)) && NextBlock(s) == Closed(block, rest)
    ensures match ParseSingleBlock(block)
            case Failed(e) => all == Failed(e)
            case Panicked => all == Panicked
            case Parsed(edit) => Reading(all, done + [edit], Edits(rest))
  {
    EditsStep(s);
    var edit := ParseSingleBlock(block);
    if edit.Parsed? { PrefixedAgain(done, edit.value, Edits(rest)); }
  }

  lemma ReadEditTail(all: Outcome<seq<FileEdit>>, done: seq<FileEdit>, s: string)
    requires Reading(all, done, Edits(s)) && !NextBlock(s).Closed?
    ensures all == if NextBlock(s).Nothing? then Parsed(done) else Prefixed(done, Salvage(Some(NextBlock(s).tail)))
  {
    EditsStep(s);
    assert done + [] == done;
  }

  method ParseEdits(response: string) returns (r: Outcome<seq<FileEdit>>)
    ensures r == Edits(response)
  {
    var edits: seq<FileEdit> := [];
    var pos := 0;
    ghost var all := Edits(response);
    assert response[0..] == response;
    PrefixedNothing(all);
    while pos < |response|
      invariant pos <= |response| && Reading(all, edits, Edits(response[pos..]))
      decreases |response| - pos
    {
      ghost var s := response[pos..];
      var b, next := FindBlock(response, pos);
      match b {
        case Nothing => break;
        case Unclosed(tail) =>
          ReadEditTail(all, edits, s);
          r := ParseTail(tail, edits);
          return;
        case Closed(block, rest) =>
          ReadEditBlock(all, edits, s, block, rest);
          var edit := ParseSingleBlock(block);
          match edit {
            case Failed(e) => return Failed(e);
            case Panicked => return Panicked;
            case Parsed(value) => edits := edits + [value];
          }
      }
      pos := next;
    }
    ReadEditTail(all, edits, response[pos..]);
    return Parsed(edits);
  }

  /** The unclosed block: parsed when it can be, dropped when it cannot. */
  method ParseTail(block: string, done: seq<FileEdit>) returns (r: Outcome<seq<FileEdit>>)
    ensures r == Prefixed(done, Salvage(Some(block)))
  {
    assert done + [] == done;
    if block == "" { return Parsed(done); }
    var edit := ParseSingleBlock(block);
    match edit {
      case Panicked => return Panicked;
      case Failed(_) => return Parsed(done);
      case Parsed(value) => return Parsed(done + [value]);
    }
  }

  // ------------------------------------------------------------------ actions

  /** What `parse_actions` makes of one closed block; `None` when it skips the block. */
  function ActionOf(block: string): Outcome<Option<AgentAction>>
  {
    var header, body := Header(block), Body(block);
    if HasPrefix(header, "TOOL ") then Parsed(Some(Tool(Trim(header[5..]), Trim(body))))
    else if HasPrefix(header, "EDIT ") || HasPrefix(header, "CREATE ") || HasPrefix(header, "DELETE ") then
      match ParseSingleBlock(block)
      case Parsed(edit) => Parsed(Some(Apply(edit)))
      case Failed(e) => Failed(e)
      case Panicked => Panicked
    else if header == "AGENT" then
      Parsed(Some(Agent(AgentBlocks.Field(body, "description"), AgentBlocks.List(body, "files"),
                        AgentBlocks.Field(body, "complexity"))))
    else if header == "DONE" then Parsed(Some(Finish(Trim(body))))
    else
      match ParseSingleBlock(block)   // kept for older responses
      case Parsed(edit) => Parsed(Some(Apply(edit)))
      case Failed(_) => Parsed(None)
      case Panicked => Panicked
  }

  function ActAll(blocks: seq<string>): Outcome<seq<AgentAction>>
  {
    if blocks == [] then Parsed([])
    else
      match ActionOf(blocks[0])
      case Failed(e) => Failed(e)
      case Panicked => Panicked
      case Parsed(action) =>
        var rest := ActAll(blocks[1..]);
        if !rest.Parsed? then rest
        else if action.Some? then Parsed([action.value] + rest.value) else rest
  }

  function Actions(s: string): Outcome<seq<AgentAction>> { ActAll(Blocks(s)) }

  lemma ActionsStep(s: string)
    ensures var b := NextBlock(s);
            Actions(s) == if !b.Closed? then Parsed([])
                          else match ActionOf(b.block)
                               case Failed(e) => Failed(e)
                               case Panicked => Panicked
                               case Parsed(None) => Actions(b.rest)
                               case Parsed(Some(action)) => Prefixed([action], Actions(b.rest))
  {
  }

  lemma ReadActionBlock(all: Outcome<seq<AgentAction>>, done: seq<AgentAction>, s: string, block: string, rest: string)
    requires Reading(all, done, Actions(s)) && NextBlock(s) == Closed(block, rest)
    ensures match ActionOf(block)
            case Failed(e) => all == Failed(e)
            case Panicked => all == Panicked
            case Parsed(None) => Reading(all, done, Actions(rest))
            case Parsed(Some(action)) => Reading(all, done + [action], Actions(rest))
  {
    ActionsStep(s);
    var action := ActionOf(block);
    if action.Parsed? && action.value.Some? { PrefixedAgain(done, action.value.value, Actions(rest)); }
  }

  lemma ReadActionEnd(all: Outcome<seq<AgentAction>>, done: seq<AgentAction>, s: string)
    requires Reading(all, done, Actions(s)) && !NextBlock(s).Closed?
    ensures all == Parsed(done)
  {
    ActionsStep(s);
    assert done + [] == done;
  }

  method ParseActions(response: string) returns (r: Outcome<seq<AgentAction>>)
    ensures r == Actions(response)
  {
    var actions: seq<AgentAction> := [];
    var pos := 0;
    ghost var all := Actions(response);
    assert response[0..] == response;
    PrefixedNothing(all);
    while pos < |response|
      invariant pos <= |response| && Reading(all, actions, Actions(response[pos..]))
      decreases |response| - pos
    {
      ghost var s := response[pos..];
      var b, next := FindBlock(response, pos);
      if !b.Closed? { break; }
      ReadActionBlock(all, actions, s, b.block, b.rest);
      var action := ActionOf(b.block);
      match action {
        case Failed(e) => return Failed(e);
        case Panicked => return Panicked;
        case Parsed(None) =>
        case Parsed(Some(value)) => actions := actions + [value];
      }
      pos := next;
    }
    ReadActionEnd(all, actions, response[pos..]);
    return Parsed(actions);
  }

  function Applied(edits: seq<FileEdit>): seq<AgentAction>
  {
    seq(|edits|, i requires 0 <= i < |edits| => Apply(edits[i]))
  }

  lemma EditBlockIsAction(block: string)
    requires ParseSingleBlock(block).Parsed?
    ensures ActionOf(block) == Parsed(Some(Apply(ParseSingleBlock(block).value)))
  {
    assert Header(block)[0] in "ECD";
  }

  /** A block gives an edit action exactly when the edit parser reads it: the branch for unknown headers never
      yields one. */
  lemma EditActionIff(block: string)
    ensures ActionOf(block).Panicked? <==> ParseSingleBlock(block).Panicked?
    ensures ActionOf(block).Parsed? ==>
              (ActionOf(block).value.Some? && ActionOf(block).value.value.Apply? <==> ParseSingleBlock(block).Parsed?)
  {
    if ParseSingleBlock(block).Parsed? { EditBlockIsAction(block); }
    if ParseSingleBlock(block).Panicked? { assert Header(block)[0] == 'E'; }
  }

  /** The edits among actions. */
  function EditsAmong(actions: seq<AgentAction>): seq<FileEdit>
  {
    if actions == [] then []
    else (if actions[0].Apply? then [actions[0].edit] else []) + EditsAmong(actions[1..])
  }

  /** The edits of the blocks that are edit blocks. */
  function EditsOf(blocks: seq<string>): seq<FileEdit>
  {
    if blocks == [] then []
    else (match ParseSingleBlock(blocks[0]) case Parsed(edit) => [edit] case _ => []) + EditsOf(blocks[1..])
  }

  /** Whatever other blocks are between them: the edits among the actions of a response are those of its edit blocks,
      in order. */
  lemma {:induction false} EditActionsAreEdits(blocks: seq<string>)
    requires ActAll(blocks).Parsed?
    ensures EditsAmong(ActAll(blocks).value) == EditsOf(blocks)
    decreases |blocks|
  {
    if blocks != [] {
      EditActionsAreEdits(blocks[1..]);
      EditActionIff(blocks[0]);
      var action, rest := ActionOf(blocks[0]).value, ActAll(blocks[1..]).value;
      if ParseSingleBlock(blocks[0]).Parsed? { EditBlockIsAction(blocks[0]); }
      if action.Some? { assert ([action.value] + rest)[1..] == rest; }
    }
  }

  lemma AppliedCons(edit: FileEdit, rest: seq<FileEdit>)
    ensures Applied([edit] + rest) == [Apply(edit)] + Applied(rest)
  {
  }

  lemma {:induction false} EditBlocksAreActions(blocks: seq<string>)
    requires ParseAll(blocks).Parsed?
    ensures ActAll(blocks) == Parsed(Applied(ParseAll(blocks).value))
  {
    if blocks == [] {
      assert Applied([]) == [];
    } else {
      EditBlocksAreActions(blocks[1..]);
      EditBlockIsAction(blocks[0]);
      AppliedCons(ParseSingleBlock(blocks[0]).value, ParseAll(blocks[1..]).value);
    }
  }

  /** A response the edit parser accepts is accepted by the action parser, with the same edits in the same
      order exactly when nothing was salvaged from an unclosed block. */
  lemma ActionsAgreeWithEdits(s: string)
    requires Edits(s).Parsed?
    ensures Actions(s).Parsed?
    ensures Actions(s).value == Applied(Edits(s).value) <==> Salvage(OpenTail(s)) == Parsed([])
    ensures OpenTail(s) == None ==> Actions(s).value == Applied(Edits(s).value)
  {
    EditBlocksAreActions(Blocks(s));
    var closed, extra := ParseAll(Blocks(s)).value, Salvage(OpenTail(s)).value;
    assert |Applied(closed)| == |closed| && |Applied(closed + extra)| == |closed| + |extra|;
    if extra == [] { assert closed + extra == closed; }
  }
}
