/** Edit lists as programs over a workspace, and the bounded check/fix loop that extends one. Workspaces `W`,
    edits `E` and errors `X` are parameters; `one` applies a single edit. */
module Replay {
  import opened Wrappers

  /** A workspace, and the error that stopped the edits half-way, if any. */
  datatype Applied<W, X> = Applied(ws: W, error: Option<X>)

  /** Edits in order; the first error stops them and what was written stays. */
  function ApplyAll<W, E, X>(one: (W, E) -> Applied<W, X>, ws: W, edits: seq<E>): Applied<W, X>
    decreases |edits|
  {
    if edits == [] then Applied(ws, None)
    else
      var first := one(ws, edits[0]);
      if first.error.Some? then first else ApplyAll(one, first.ws, edits[1..])
  }

  lemma {:induction false} ApplyConcat<W, E, X>(one: (W, E) -> Applied<W, X>, ws: W, xs: seq<E>, ys: seq<E>)
    ensures var a := ApplyAll(one, ws, xs);
            ApplyAll(one, ws, xs + ys) == if a.error.Some? then a else ApplyAll(one, a.ws, ys)
    decreases |xs|
  {
    if xs == [] {
      assert xs + ys == ys;
    } else {
      assert (xs + ys)[1..] == xs[1..] + ys;
      var first := one(ws, xs[0]);
      if first.error.None? { ApplyConcat(one, first.ws, xs[1..], ys); }
    }
  }

  // ------------------------------------------------------------------ the loop

  /** A model's answer: unusable, or a list of edits. */
  datatype Answer<E, X> = Unusable(error: X) | Answered(edits: seq<E>)
  {
    function Given(): seq<E> { if Answered? then edits else [] }
  }

  /** The oracles of one run: whether the i-th check passes, and the i-th fix answer. */
  datatype Oracle<!E, !X> = Oracle(check: nat -> bool, fix: nat -> Answer<E, X>)

  datatype Result<+T, +X> = Ok(value: T) | Err(error: X)
  datatype GraphResult<E> = GraphResult(edits: seq<E>, escalated: bool)

  /** How a run ends: the workspace, what is returned, the workspace at each check, the number of fix calls. */
  datatype Final<W, E, X> = Final(ws: W, result: Result<GraphResult<E>, X>, checkedOn: seq<W>, fixCalls: nat)
  {
    function After(checked: seq<W>, calls: nat): Final<W, E, X>
    {
      Final(ws, result, checked + checkedOn, calls + fixCalls)
    }
  }

  function Respond<W, E, X>(one: (W, E) -> Applied<W, X>, ws: W, answer: Answer<E, X>): Applied<W, X>
  {
    match answer
    case Unusable(error) => Applied(ws, Some(error))
    case Answered(edits) => ApplyAll(one, ws, edits)
  }

  /** The loop from attempt `n` on, with `left` attempts to go. */
  function FixLoop<W, E, X>(one: (W, E) -> Applied<W, X>, ws: W, left: nat, n: nat, edits: seq<E>,
                            o: Oracle<E, X>): Final<W, E, X>
    decreases left
  {
    if left == 0 then Final(ws, Ok(GraphResult(edits, true)), [], 0)
    else if o.check(n) then Final(ws, Ok(GraphResult(edits, false)), [ws], 0)
    else if left == 1 then Final(ws, Ok(GraphResult(edits, true)), [ws], 0)
    else
      var fixed := Respond(one, ws, o.fix(n));
      if fixed.error.Some? then Final(fixed.ws, Err(fixed.error.value), [ws], 1)
      else FixLoop(one, fixed.ws, left - 1, n + 1, edits + o.fix(n).Given(), o).After([ws], 1)
  }

  // ------------------------------------------------------------------ one round at a time

  lemma AfterTwice<W, E, X>(f: Final<W, E, X>, before: seq<W>, seen: W, calls: nat)
    ensures f.After([seen], 1).After(before, calls) == f.After(before + [seen], calls + 1)
  {
    assert before + ([seen] + f.checkedOn) == before + [seen] + f.checkedOn;
  }

  /** What is done and what is left make up the whole run `all`. */
  ghost predicate Looping<W, E, X>(all: Final<W, E, X>, one: (W, E) -> Applied<W, X>, ws: W, left: nat, n: nat,
                                   edits: seq<E>,
                                   o: Oracle<E, X>, checked: seq<W>, calls: nat)
  {
    all == FixLoop(one, ws, left, n, edits, o).After(checked, calls)
  }

  lemma LoopStarts<W, E, X>(one: (W, E) -> Applied<W, X>, ws: W, left: nat, edits: seq<E>, o: Oracle<E, X>)
    ensures Looping(FixLoop(one, ws, left, 0, edits, o), one, ws, left, 0, edits, o, [], 0)
  {
    var f := FixLoop(one, ws, left, 0, edits, o);
    assert [] + f.checkedOn == f.checkedOn;
  }

  lemma LoopStops<W, E, X>(all: Final<W, E, X>, one: (W, E) -> Applied<W, X>, ws: W, left: nat, n: nat, edits: seq<E>,
                           o: Oracle<E, X>, checked: seq<W>, calls: nat)
    requires Looping(all, one, ws, left, n, edits, o, checked, calls)
    ensures left == 0 ==> all == Final(ws, Ok(GraphResult(edits, true)), checked, calls)
    ensures left > 0 && o.check(n) ==> all == Final(ws, Ok(GraphResult(edits, false)), checked + [ws], calls)
    ensures left == 1 && !o.check(n) ==> all == Final(ws, Ok(GraphResult(edits, true)), checked + [ws], calls)
  {
    assert checked + [] == checked;
  }

  lemma LoopGoesOn<W, E, X>(all: Final<W, E, X>, one: (W, E) -> Applied<W, X>, ws: W, left: nat, n: nat, edits: seq<E>,
                            o: Oracle<E, X>, checked: seq<W>, calls: nat, fixed: Applied<W, X>)
    requires Looping(all, one, ws, left, n, edits, o, checked, calls) && left > 1 && !o.check(n)
    requires fixed == Respond(one, ws, o.fix(n))
    ensures fixed.error.Some? ==> all == Final(fixed.ws, Err(fixed.error.value), checked + [ws], calls + 1)
    ensures fixed.error.None? ==>
              Looping(all, one, fixed.ws, left - 1, n + 1, edits + o.fix(n).Given(), o, checked + [ws], calls + 1)
  {
    if fixed.error.None? {
      AfterTwice(FixLoop(one, fixed.ws, left - 1, n + 1, edits + o.fix(n).Given(), o), checked, ws, calls);
    }
  }

  // ------------------------------------------------------------------ what the loop guarantees

  /** The edits of fix answers `n` to `n + k - 1`. */
  function Gathered<E, X>(o: Oracle<E, X>, n: nat, k: nat): seq<E>
    decreases k
  {
    if k == 0 then [] else o.fix(n).Given() + Gathered(o, n + 1, k - 1)
  }

  /** Checks `n` to `n + k - 1` all fail. */
  predicate AllFail<E, X>(o: Oracle<E, X>, n: nat, k: nat)
    decreases k
  {
    k == 0 || (!o.check(n) && AllFail(o, n + 1, k - 1))
  }

  lemma GatheredOne<E, X>(o: Oracle<E, X>, n: nat)
    ensures Gathered(o, n, 1) == o.fix(n).Given()
  {
    assert o.fix(n).Given() + Gathered(o, n + 1, 0) == o.fix(n).Given();
  }

  lemma Associative<E>(xs: seq<E>, ys: seq<E>, zs: seq<E>)
    ensures xs + ys + zs == xs + (ys + zs)
  {
  }

  /** On every outcome the workspace is the fix answers' edits replayed; on success they all applied, and the
      returned list is what went in followed by exactly those edits. */
  lemma {:induction false} LoopReplays<W, E, X>(one: (W, E) -> Applied<W, X>, ws: W, left: nat, n: nat, edits: seq<E>,
                                                o: Oracle<E, X>)
    ensures var f := FixLoop(one, ws, left, n, edits, o);
            var a := ApplyAll(one, ws, Gathered(o, n, f.fixCalls));
            && (f.result.Ok? ==> a == Applied(f.ws, None) && f.result.value.edits == edits + Gathered(o, n, f.fixCalls))
            && (f.result.Err? ==> f.ws == a.ws)
    decreases left
  {
    assert edits + [] == edits;
    if left > 1 && !o.check(n) {
      var more, fixed := o.fix(n).Given(), Respond(one, ws, o.fix(n));
      if fixed.error.None? {
        LoopReplays(one, fixed.ws, left - 1, n + 1, edits + more, o);
        var k := FixLoop(one, fixed.ws, left - 1, n + 1, edits + more, o).fixCalls;
        ApplyConcat(one, ws, more, Gathered(o, n + 1, k));
        Associative(edits, more, Gathered(o, n + 1, k));
      } else {
        GatheredOne(o, n);
      }
    }
  }

  /** At most `left` checks and one fix call fewer. */
  lemma {:induction false} LoopEffort<W, E, X>(one: (W, E) -> Applied<W, X>, ws: W, left: nat, n: nat, edits: seq<E>,
                                               o: Oracle<E, X>)
    ensures var f := FixLoop(one, ws, left, n, edits, o); var k := |f.checkedOn|;
            && k <= left && f.fixCalls <= (if left == 0 then 0 else left - 1)
            && (f.result.Ok? && k > 0 ==> f.fixCalls == k - 1)
            && (f.result.Err? ==> f.fixCalls == k)
    decreases left
  {
    if left > 1 && !o.check(n) {
      var fixed := Respond(one, ws, o.fix(n));
      if fixed.error.None? { LoopEffort(one, fixed.ws, left - 1, n + 1, edits + o.fix(n).Given(), o); }
    }
  }

  /** Every check but the last fails; a result counts as passed only if the last check passed, on the very
      workspace that is returned, and as escalated only if all the checks it was allowed failed. */
  ghost predicate Verdict<W, E, X>(f: Final<W, E, X>, o: Oracle<E, X>, n: nat, left: nat)
  {
    var k := |f.checkedOn|;
    && (f.result.Ok? && k > 0 ==> f.checkedOn[k - 1] == f.ws)
    && (f.result.Ok? && !f.result.value.escalated ==> k > 0 && o.check(n + k - 1) && AllFail(o, n, k - 1))
    && (f.result.Ok? && f.result.value.escalated ==> k == left && AllFail(o, n, left))
    && (f.result.Err? ==> AllFail(o, n, k))
  }

  lemma OneMoreFailed<W, E, X>(f: Final<W, E, X>, o: Oracle<E, X>, n: nat, left: nat, ws: W)
    requires left > 1 && !o.check(n) && Verdict(f, o, n + 1, left - 1) && (f.result.Ok? ==> |f.checkedOn| > 0)
    ensures Verdict(f.After([ws], 1), o, n, left)
  {
    var k := |f.checkedOn|;
    if k > 0 { assert ([ws] + f.checkedOn)[k] == f.checkedOn[k - 1]; }
  }

  lemma {:induction false} LoopVerdict<W, E, X>(one: (W, E) -> Applied<W, X>, ws: W, left: nat, n: nat, edits: seq<E>,
                                                o: Oracle<E, X>)
    ensures Verdict(FixLoop(one, ws, left, n, edits, o), o, n, left)
    ensures left > 0 ==> |FixLoop(one, ws, left, n, edits, o).checkedOn| > 0
    decreases left
  {
    if left > 1 && !o.check(n) {
      var fixed := Respond(one, ws, o.fix(n));
      if fixed.error.None? {
        LoopVerdict(one, fixed.ws, left - 1, n + 1, edits + o.fix(n).Given(), o);
        OneMoreFailed(FixLoop(one, fixed.ws, left - 1, n + 1, edits + o.fix(n).Given(), o), o, n, left, ws);
      }
    }
  }

  /** From the first answer on: on every success the workspace is the initial one with exactly the returned
      edits replayed. */
  lemma TaskReplays<W, E, X>(one: (W, E) -> Applied<W, X>, ws: W, maxRetries: nat, first: seq<E>, o: Oracle<E, X>)
    requires ApplyAll(one, ws, first).error.None?
    ensures var f := FixLoop(one, ApplyAll(one, ws, first).ws, maxRetries, 0, first, o);
            f.result.Ok? ==> ApplyAll(one, ws, f.result.value.edits) == Applied(f.ws, None)
  {
    var ws1 := ApplyAll(one, ws, first).ws;
    LoopReplays(one, ws1, maxRetries, 0, first, o);
    ApplyConcat(one, ws, first, Gathered(o, 0, FixLoop(one, ws1, maxRetries, 0, first, o).fixCalls));
  }
}
