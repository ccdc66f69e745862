/** The graph executor: applies a model's edits to the workspace, checks, and lets the model fix what the check
    reports, a bounded number of times. The loop itself is specified and studied in `Replay`. */
module GraphExecutor {
  import opened Wrappers
  import opened Text
  import opened EditParser
  import opened FuzzyEdit
  import opened Replay

  type Workspace = map<string, string>

  datatype Error = ReadFailed(path: string) | WriteFailed(path: string) | OldNotFound(path: string)
                 | Truncated(path: string) | NoAnswer | ParserPanicked

  type Change = Applied<Workspace, Error>

  function Write(ws: Workspace, locked: set<string>, path: string, text: string): Change
  {
    if path in locked then Applied(ws, Some(WriteFailed(path))) else Applied(ws[path := text], None)
  }

  /** One edit. Files in `locked` cannot be written, and deleting them fails silently. */
  function ApplyOne(ws: Workspace, locked: set<string>, e: FileEdit): Change
  {
    match e
    case Edit(path, o, n) =>
      if path !in ws then Applied(ws, Some(ReadFailed(path)))
      else (
        match FuzzyReplace(ws[path], o, n)
        case Some(updated) => Write(ws, locked, path, updated)
        case None => Applied(ws, Some(OldNotFound(path))))
    case Create(path, content) => Write(ws, locked, path, content)
    case Delete(path) => Applied(if path in locked then ws else ws - {path}, None)
  }

  function One(locked: set<string>): (Workspace, FileEdit) -> Change
  {
    (ws: Workspace, e: FileEdit) => ApplyOne(ws, locked, e)
  }

  predicate SameAt(a: Workspace, b: Workspace, path: string)
  {
    (path in a <==> path in b) && (path in a && path in b ==> a[path] == b[path])
  }

  lemma WriteTouchesOwnPath(ws: Workspace, locked: set<string>, written: string, text: string, path: string)
    requires written != path || path in locked
    ensures SameAt(Write(ws, locked, written, text).ws, ws, path)
  {
  }

  lemma OneTouchesOwnPath(ws: Workspace, locked: set<string>, e: FileEdit, path: string)
    requires e.path != path || path in locked
    ensures SameAt(ApplyOne(ws, locked, e).ws, ws, path)
  {
    match e {
      case Edit(p, o, n) =>
        if p in ws {
          var r := FuzzyReplace(ws[p], o, n);
          if r.Some? { WriteTouchesOwnPath(ws, locked, p, r.value, path); }
        }
      case Create(p, content) => WriteTouchesOwnPath(ws, locked, p, content, path);
      case Delete(p) =>
    }
  }

  /** Files no edit names, and locked files, are left as they were. */
  lemma {:induction false} OthersUntouched(ws: Workspace, locked: set<string>, edits: seq<FileEdit>, path: string)
    requires path in locked || forall e :: e in edits ==> e.path != path
    ensures SameAt(ApplyAll(One(locked), ws, edits).ws, ws, path)
    decreases |edits|
  {
    if edits != [] {
      OneTouchesOwnPath(ws, locked, edits[0], path);
      var first := One(locked)(ws, edits[0]);
      if first.error.None? { OthersUntouched(first.ws, locked, edits[1..], path); }
    }
  }

  /** `parse_edits(..).unwrap_or_default()`: an answer that does not parse contributes no edits. */
  function AnswerOf(text: Option<string>): Answer<FileEdit, Error>
  {
    match text
    case None => Unusable(NoAnswer)
    case Some(t) =>
      match Edits(t)
      case Parsed(edits) => Answered(edits)
      case Failed(_) => Answered([])
      case Panicked => Unusable(ParserPanicked)
  }

  function OracleOf(check: nat -> bool, fix: nat -> Option<string>): Oracle<FileEdit, Error>
  {
    Oracle(check, (i: nat) => AnswerOf(fix(i)))
  }

  /** `doc_rewrite_truncated`: under 60% of an original of at least 20 lines. */
  predicate RewriteTruncated(original: string, rewritten: string)
  {
    |Lines(original)| >= 20 && |Lines(rewritten)| * 100 < |Lines(original)| * 60
  }

  ghost predicate TruncatedCreate(original: string, edits: seq<FileEdit>)
  {
    exists k :: 0 <= k < |edits| && edits[k].Create? && RewriteTruncated(original, edits[k].content)
  }

  method AnyTruncated(original: string, edits: seq<FileEdit>) returns (refused: bool)
    ensures refused <==> TruncatedCreate(original, edits)
  {
    for i := 0 to |edits|
      invariant forall k :: 0 <= k < i && edits[k].Create? ==> !RewriteTruncated(original, edits[k].content)
    {
      if edits[i].Create? && RewriteTruncated(original, edits[i].content) { return true; }
    }
    return false;
  }

  class Executor {
    var workspace: Workspace
    const locked: set<string>
    const maxRetries: nat

    constructor (workspace: Workspace, locked: set<string>, maxRetries: nat)
      ensures this.workspace == workspace && this.locked == locked && this.maxRetries == maxRetries
    {
      this.workspace, this.locked, this.maxRetries := workspace, locked, maxRetries;
    }

    method ApplyEdits(edits: seq<FileEdit>) returns (error: Option<Error>)
      modifies this`workspace
      ensures Applied(workspace, error) == ApplyAll(One(locked), old(workspace), edits)
    {
      assert edits[0..] == edits;
      for i := 0 to |edits|
        invariant ApplyAll(One(locked), old(workspace), edits) == ApplyAll(One(locked), workspace, edits[i..])
      {
        assert edits[i..][1..] == edits[i + 1..];
        match edits[i] {
          case Edit(path, o, n) =>
            if path !in workspace { return Some(ReadFailed(path)); }
            var updated := FuzzyReplace(workspace[path], o, n);
            if updated.None? { return Some(OldNotFound(path)); }
            if path in locked { return Some(WriteFailed(path)); }
            workspace := workspace[path := updated.value];
          case Create(path, content) =>
            if path in locked { return Some(WriteFailed(path)); }
            workspace := workspace[path := content];
          case Delete(path) =>
            if path !in locked { workspace := workspace - {path}; }
        }
      }
      return None;
    }

    /** Parses an answer and applies its edits. */
    method ApplyResponse(text: Option<string>, ghost answer: Answer<FileEdit, Error>)
      returns (edits: seq<FileEdit>, error: Option<Error>)
      requires answer == AnswerOf(text)
      modifies this`workspace
      ensures Applied(workspace, error) == Respond(One(locked), old(workspace), answer)
      ensures edits == answer.Given()
    {
      if text.None? { return [], Some(NoAnswer); }
      var parsed := ParseEdits(text.value);
      if parsed.Panicked? { return [], Some(ParserPanicked); }
      edits := if parsed.Parsed? then parsed.value else [];
      error := ApplyEdits(edits);
    }

    /** One attempt of the loop: check, then stop, escalate or ask for a fix. */
    method Attempt(attempt: nat, left: nat, edits: seq<FileEdit>, check: bool, fix: Option<string>, calls: nat,
                   ghost all: Final<Workspace, FileEdit, Error>, ghost o: Oracle<FileEdit, Error>,
                   ghost checked: seq<Workspace>)
      returns (done: bool, r: Result<GraphResult<FileEdit>, Error>, edits': seq<FileEdit>, calls': nat)
      requires left > 0 && check == o.check(attempt) && o.fix(attempt) == AnswerOf(fix)
      requires Looping(all, One(locked), workspace, left, attempt, edits, o, checked, calls)
      modifies this`workspace
      ensures done ==> all == Final(workspace, r, checked + [old(workspace)], calls')
      ensures !done ==>
                left > 1 && Looping(all, One(locked), workspace, left - 1, attempt + 1, edits', o,
                                    checked + [old(workspace)], calls')
    {
      if check || left == 1 {
        LoopStops(all, One(locked), workspace, left, attempt, edits, o, checked, calls);
        return true, Ok(GraphResult(edits, !check)), edits, calls;
      }
      var more, error := AskFix(attempt, edits, fix, calls, left, all, o, checked);
      if error.Some? { return true, Err(error.value), edits, calls + 1; }
      return false, Ok(GraphResult([], true)), edits + more, calls + 1;
    }

    /** A failed check that is not the last: ask for a fix and apply it. */
    method AskFix(attempt: nat, edits: seq<FileEdit>, fix: Option<string>, calls: nat, ghost left: nat,
                  ghost all: Final<Workspace, FileEdit, Error>, ghost o: Oracle<FileEdit, Error>,
                  ghost checked: seq<Workspace>)
      returns (more: seq<FileEdit>, error: Option<Error>)
      requires left > 1 && !o.check(attempt) && o.fix(attempt) == AnswerOf(fix)
      requires Looping(all, One(locked), workspace, left, attempt, edits, o, checked, calls)
      modifies this`workspace
      ensures error.Some? ==> all == Final(workspace, Err(error.value), checked + [old(workspace)], calls + 1)
      ensures error.None? ==>
                Looping(all, One(locked), workspace, left - 1, attempt + 1, edits + more, o,
                        checked + [old(workspace)], calls + 1)
    {
      ghost var ws := workspace;
      more, error := ApplyResponse(fix, o.fix(attempt));
      LoopGoesOn(all, One(locked), ws, left, attempt, edits, o, checked, calls, Applied(workspace, error));
    }

    method CheckAndFix(initial: seq<FileEdit>, check: nat -> bool, fix: nat -> Option<string>)
      returns (r: Result<GraphResult<FileEdit>, Error>, checkedOn: seq<Workspace>, fixCalls: nat)
      modifies this`workspace
      ensures Final(workspace, r, checkedOn, fixCalls) ==
                FixLoop(One(locked), old(workspace), maxRetries, 0, initial, OracleOf(check, fix))
    {
      var edits := initial;
      checkedOn, fixCalls := [], 0;
      ghost var o := OracleOf(check, fix);
      ghost var all := FixLoop(One(locked), workspace, maxRetries, 0, initial, o);
      LoopStarts(One(locked), workspace, maxRetries, initial, o);
      for attempt := 0 to maxRetries
        invariant Looping(all, One(locked), workspace, maxRetries - attempt, attempt, edits, o, checkedOn, fixCalls)
      {
        ghost var checked := checkedOn;
        checkedOn := checkedOn + [workspace];
        var done: bool;
        done, r, edits, fixCalls :=
          Attempt(attempt, maxRetries - attempt, edits, check(attempt), fix(attempt), fixCalls, all, o, checked);
        if done { return; }
      }
      LoopStops(all, One(locked), workspace, 0, maxRetries, edits, o, checkedOn, fixCalls);
      return Ok(GraphResult(edits, true)), checkedOn, fixCalls;
    }

    /** Editing an existing file: read it, ask, apply, check and fix. Creating one is the same without the read. What is
        returned as passed was checked as it is; what is returned as escalated failed every check it was allowed. */
    method Execute(mustExist: Option<string>, answer: Option<string>, check: nat -> bool, fix: nat -> Option<string>)
      returns (r: Result<GraphResult<FileEdit>, Error>, checkedOn: seq<Workspace>, fixCalls: nat)
      modifies this`workspace
      ensures mustExist.Some? && mustExist.value !in old(workspace) ==> r.Err? && workspace == old(workspace)
      ensures r.Ok? ==> ApplyAll(One(locked), old(workspace), r.value.edits) == Applied(workspace, None)
      ensures |checkedOn| <= maxRetries && fixCalls <= if maxRetries == 0 then 0 else maxRetries - 1
      ensures r.Ok? ==> Verdict(Final(workspace, r, checkedOn, fixCalls), OracleOf(check, fix), 0, maxRetries)
      ensures r.Ok? && checkedOn != [] ==> checkedOn[|checkedOn| - 1] == workspace && fixCalls == |checkedOn| - 1
    {
      checkedOn, fixCalls := [], 0;
      if mustExist.Some? && mustExist.value !in workspace {
        return Err(ReadFailed(mustExist.value)), checkedOn, fixCalls;
      }
      ghost var ws := workspace;
      var edits, error := ApplyResponse(answer, AnswerOf(answer));
      if error.Some? { return Err(error.value), checkedOn, fixCalls; }
      ghost var ws1 := workspace;
      r, checkedOn, fixCalls := CheckAndFix(edits, check, fix);
      TaskReplays(One(locked), ws, maxRetries, edits, OracleOf(check, fix));
      LoopVerdict(One(locked), ws1, maxRetries, 0, edits, OracleOf(check, fix));
      LoopEffort(One(locked), ws1, maxRetries, 0, edits, OracleOf(check, fix));
    }

    /** Rewriting a document: no check, but a rewrite that lost too many lines is refused before anything is
        written. */
    method ExecuteDoc(path: string, answer: string) returns (r: Result<GraphResult<FileEdit>, Error>)
      modifies this`workspace
      ensures TruncatedCreate(if path in old(workspace) then old(workspace)[path] else "",
                              AnswerOf(Some(answer)).Given()) ==>
                r == Err(Truncated(path)) && workspace == old(workspace)
      ensures r.Ok? ==>
                && !r.value.escalated
                && ApplyAll(One(locked), old(workspace), r.value.edits) == Applied(workspace, None)
    {
      var original := if path in workspace then workspace[path] else "";
      var parsed := ParseEdits(answer);
      if parsed.Panicked? { return Err(ParserPanicked); }
      var edits := if parsed.Parsed? then parsed.value else [];
      var refused := AnyTruncated(original, edits);
      if refused { return Err(Truncated(path)); }
      var error := ApplyEdits(edits);
      return if error.Some? then Err(error.value) else Ok(GraphResult(edits, false));
    }
  }
}
