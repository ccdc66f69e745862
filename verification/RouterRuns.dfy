/** Requests that overlap in time: any interleaving of arrivals, failed attempts and endings. Reading the loads,
    choosing the order and entering the first guard are one step. */
module RouterRuns {
  import opened Loads
  import opened Router

  /** A request in its host loop: `order[at]` is the host whose guard it holds. `hosts` is what it was given. */
  datatype Request = Request(hosts: seq<nat>, order: seq<nat>, at: nat)
  {
    ghost predicate Valid(n: nat)
    {
      at < |order| && multiset(order) == multiset(hosts) && forall h :: h in order ==> h < n
    }
  }

  datatype State = State(loads: seq<nat>, rr: nat, live: map<int, Request>)

  datatype Step =
    | Arrive(id: int, hosts: seq<nat>)
    | Prefer(id: int, host: nat)
    | Fail(id: int)
    | Finish(id: int)

  /** A preferred model's host gets a guard of its own, without the cursor; a request that then fails comes back
      as an arrival. A request without hosts never enters a guard. */
  ghost predicate Enabled(s: State, step: Step)
  {
    match step
    case Arrive(id, hosts) => id !in s.live && hosts != [] && InRange(hosts, s.loads)
    case Prefer(id, host) => id !in s.live && host < |s.loads|
    case Fail(id) => id in s.live && s.live[id].at < |s.live[id].order|
    case Finish(id) => id in s.live && s.live[id].at < |s.live[id].order|
  }

  function Enter(loads: seq<nat>, h: nat): seq<nat> { Bump(loads, h) }

  function Drop(loads: seq<nat>, h: nat): seq<nat>
  {
    if h < |loads| && loads[h] > 0 then loads[h := loads[h] - 1] else loads
  }

  function Held(s: State, id: int): int
  {
    if id in s.live && s.live[id].at < |s.live[id].order| then s.live[id].order[s.live[id].at] else -1
  }

  function Begin(s: State, id: int, r: Request, rr: nat): State
    requires r.order != []
  {
    State(Enter(s.loads, r.order[0]), rr, s.live[id := r])
  }

  function Leave(s: State, id: int): State
    requires Held(s, id) >= 0
  {
    State(Drop(s.loads, Held(s, id)), s.rr, s.live - {id})
  }

  function Next(s: State, id: int): State
    requires Held(s, id) >= 0 && s.live[id].at + 1 < |s.live[id].order|
  {
    var r := s.live[id].(at := s.live[id].at + 1);
    State(Enter(Drop(s.loads, Held(s, id)), r.order[r.at]), s.rr, s.live[id := r])
  }

  ghost predicate Steps(s: State, step: Step, s': State)
  {
    && Enabled(s, step)
    && match step
       case Arrive(id, hosts) =>
         var order := Ordered(hosts, s.loads, s.rr);
         order != [] && s' == Begin(s, id, Request(hosts, order, 0), NextCursor(hosts, s.loads, s.rr))
       case Prefer(id, host) => s' == Begin(s, id, Request([host], [host], 0), s.rr)
       case Fail(id) => s' == if s.live[id].at + 1 < |s.live[id].order| then Next(s, id) else Leave(s, id)
       case Finish(id) => s' == Leave(s, id)
  }

  ghost predicate Run(states: seq<State>, steps: seq<Step>)
  {
    |states| == |steps| + 1 && forall i :: 0 <= i < |steps| ==> Steps(states[i], steps[i], states[i + 1])
  }

  lemma RunInit(states: seq<State>, steps: seq<Step>, n: nat, init: seq<State>)
    requires Run(states, steps) && |steps| == n + 1 && init == states[..n + 1]
    ensures Run(init, steps[..n]) && init[0] == states[0] && init[n] == states[n]
    ensures Steps(states[n], steps[n], states[n + 1])
  {
  }

  ghost predicate Initial(s: State) { s.live == map[] && forall i :: 0 <= i < |s.loads| ==> s.loads[i] == 0 }

  // ------------------------------------------------------------------ counters are guards

  /** The requests holding a guard of host `h`. */
  function Holders(s: State, h: nat): set<int> { set id | id in s.live && Held(s, id) == h }

  ghost predicate Counted(s: State)
  {
    forall h :: 0 <= h < |s.loads| ==> s.loads[h] == |Holders(s, h)|
  }

  ghost predicate Valid(s: State)
  {
    Counted(s) && forall id :: id in s.live ==> s.live[id].Valid(|s.loads|)
  }

  lemma BeginHolders(s: State, id: int, r: Request, rr: nat, h: nat)
    requires id !in s.live && r.order != [] && r.at == 0
    ensures Holders(Begin(s, id, r, rr), h) == if r.order[0] == h then Holders(s, h) + {id} else Holders(s, h)
  {
  }

  lemma BeginCounts(s: State, id: int, r: Request, rr: nat)
    requires Valid(s) && id !in s.live && r.Valid(|s.loads|) && r.at == 0
    ensures Valid(Begin(s, id, r, rr))
  {
    var s' := Begin(s, id, r, rr);
    forall h | 0 <= h < |s.loads| ensures s'.loads[h] == |Holders(s', h)| {
      BeginHolders(s, id, r, rr, h);
    }
  }

  lemma LeaveHolders(s: State, id: int, h: nat)
    requires Held(s, id) >= 0
    ensures Holders(Leave(s, id), h) == Holders(s, h) - {id}
    ensures id in Holders(s, h) <==> Held(s, id) == h
  {
  }

  lemma LeaveCounts(s: State, id: int)
    requires Valid(s) && Held(s, id) >= 0
    ensures Valid(Leave(s, id)) && |Leave(s, id).loads| == |s.loads|
    ensures Held(s, id) < |s.loads| && s.loads[Held(s, id)] > 0
  {
    var s', held := Leave(s, id), Held(s, id);
    assert held in s.live[id].order;
    forall h | 0 <= h < |s.loads| ensures s'.loads[h] == |Holders(s', h)| {
      LeaveHolders(s, id, h);
      if h == held { assert id in Holders(s, h); }
    }
    LeaveHolders(s, id, held);
    assert id in Holders(s, held);
  }

  /** Moving on to the next host is leaving and coming back with the rest of the list. */
  lemma NextCounts(s: State, id: int)
    requires Valid(s) && Held(s, id) >= 0 && s.live[id].at + 1 < |s.live[id].order|
    ensures Valid(Next(s, id))
  {
    var left, s', r := Leave(s, id), Next(s, id), s.live[id].(at := s.live[id].at + 1);
    LeaveCounts(s, id);
    assert r.order[r.at] in r.order;
    forall h | 0 <= h < |s.loads| ensures s'.loads[h] == |Holders(s', h)| {
      NextHolders(s, id, h);
    }
  }

  lemma NextHolders(s: State, id: int, h: nat)
    requires Held(s, id) >= 0 && s.live[id].at + 1 < |s.live[id].order|
    ensures var next, rest := s.live[id].order[s.live[id].at + 1], Holders(Leave(s, id), h);
            id !in rest && Holders(Next(s, id), h) == if next == h then rest + {id} else rest
  {
  }

  lemma OrderIsValid(hosts: seq<nat>, loads: seq<nat>, rr: nat)
    requires hosts != [] && InRange(hosts, loads)
    ensures Request(hosts, Ordered(hosts, loads, rr), 0).Valid(|loads|)
  {
    OrderPermutes(hosts, loads, rr);
    SameMembers(Ordered(hosts, loads, rr), hosts);
    assert hosts[0] in hosts;
  }

  lemma StepKeepsCounts(s: State, step: Step, s': State)
    requires Valid(s) && Steps(s, step, s')
    ensures Valid(s')
  {
    match step {
      case Arrive(id, hosts) =>
        OrderIsValid(hosts, s.loads, s.rr);
        BeginCounts(s, id, Request(hosts, Ordered(hosts, s.loads, s.rr), 0), NextCursor(hosts, s.loads, s.rr));
      case Prefer(id, host) => BeginCounts(s, id, Request([host], [host], 0), s.rr);
      case Fail(id) => if s.live[id].at + 1 < |s.live[id].order| { NextCounts(s, id); } else { LeaveCounts(s, id); }
      case Finish(id) => LeaveCounts(s, id);
    }
  }

  /** In every reachable state each counter is the number of requests holding a guard of that host; with no request
      live, all are back to zero. */
  lemma {:induction false} CountersAreGuards(states: seq<State>, steps: seq<Step>)
    requires Run(states, steps) && Initial(states[0])
    ensures var s := states[|steps|];
            Valid(s) && (s.live == map[] ==> forall h :: 0 <= h < |s.loads| ==> s.loads[h] == 0)
    decreases |steps|
  {
    var s := states[|steps|];
    if steps == [] {
      assert forall h :: 0 <= h < |s.loads| ==> Holders(s, h) == {};
    } else {
      var n := |steps| - 1;
      RunInit(states, steps, n, states[..n + 1]);
      CountersAreGuards(states[..n + 1], steps[..n]);
      StepKeepsCounts(states[n], steps[n], s);
    }
    if s.live == map[] {
      assert forall h :: 0 <= h < |s.loads| ==> Holders(s, h) == {};
    }
  }

  // ------------------------------------------------------------------ what a request went through

  /** The hosts a request was given when it last came in. */
  function Asked(steps: seq<Step>, id: int): seq<int>
    decreases |steps|
  {
    if steps == [] then []
    else
      var last := |steps| - 1;
      AskedAfter(Asked(steps[..last], id), steps[last], id)
  }

  function AskedAfter(before: seq<int>, step: Step, id: int): seq<int>
  {
    match step
    case Arrive(i, hosts) => if i == id then hosts else before
    case Prefer(i, host) => if i == id then [host] else before
    case _ => before
  }

  /** The hosts whose guard it has entered since. */
  function Visits(states: seq<State>, steps: seq<Step>, id: int): seq<int>
    requires |states| == |steps| + 1
    decreases |steps|
  {
    if steps == [] then []
    else
      var last := |steps| - 1;
      VisitsAfter(Visits(states[..last + 1], steps[..last], id), steps[last], states[last + 1], id)
  }

  function VisitsAfter(before: seq<int>, step: Step, after: State, id: int): seq<int>
  {
    match step
    case Arrive(i, _) => if i == id then [Held(after, id)] else before
    case Prefer(i, _) => if i == id then [Held(after, id)] else before
    case Fail(i) => if i == id && id in after.live then before + [Held(after, id)] else before
    case Finish(_) => before
  }

  lemma LastVisits(states: seq<State>, steps: seq<Step>, n: nat, init: seq<State>, id: int)
    requires |states| == |steps| + 1 && |steps| == n + 1 && init == states[..n + 1]
    ensures Visits(states, steps, id) == VisitsAfter(Visits(init, steps[..n], id), steps[n], states[n + 1], id)
  {
  }

  lemma StepLeavesOthers(s: State, step: Step, s': State, id: int)
    requires Steps(s, step, s') && step.id != id
    ensures (id in s'.live <==> id in s.live) && (id in s.live ==> s'.live[id] == s.live[id])
  {
  }

  lemma {:induction false} VisitsAreOrder(states: seq<State>, steps: seq<Step>, id: int)
    requires Run(states, steps) && Initial(states[0]) && id in states[|steps|].live
    ensures var r := states[|steps|].live[id];
            r.at < |r.order| && Visits(states, steps, id) == r.order[..r.at + 1]
    decreases |steps|
  {
    var n := |steps| - 1;
    var init := states[..n + 1];
    RunInit(states, steps, n, init);
    CountersAreGuards(init, steps[..n]);
    if id in states[n].live { VisitsAreOrder(init, steps[..n], id); }
    VisitsKeep(Visits(init, steps[..n], id), states[n], steps[n], states[n + 1], id);
    LastVisits(states, steps, n, init, id);
  }

  lemma {:induction false} AskedAreHosts(states: seq<State>, steps: seq<Step>, id: int)
    requires Run(states, steps) && Initial(states[0]) && id in states[|steps|].live
    ensures Asked(steps, id) == states[|steps|].live[id].hosts
    decreases |steps|
  {
    var n := |steps| - 1;
    RunInit(states, steps, n, states[..n + 1]);
    if id in states[n].live { AskedAreHosts(states[..n + 1], steps[..n], id); }
    AskedKeep(Asked(steps[..n], id), states[n], steps[n], states[n + 1], id);
  }

  lemma AskedKeep(before: seq<int>, s: State, step: Step, s': State, id: int)
    requires Steps(s, step, s') && id in s'.live && (id in s.live ==> before == s.live[id].hosts)
    ensures AskedAfter(before, step, id) == s'.live[id].hosts
  {
    if step.id != id { StepLeavesOthers(s, step, s', id); }
  }

  lemma VisitsKeep(before: seq<int>, s: State, step: Step, s': State, id: int)
    requires Valid(s) && Steps(s, step, s') && id in s'.live
    requires id in s.live ==> s.live[id].at < |s.live[id].order| && before == s.live[id].order[..s.live[id].at + 1]
    ensures s'.live[id].at < |s'.live[id].order|
    ensures VisitsAfter(before, step, s', id) == s'.live[id].order[..s'.live[id].at + 1]
  {
    if step.id != id {
      StepLeavesOthers(s, step, s', id);
    } else if step.Fail? {
      NextVisit(s.live[id], s'.live[id]);
    }
  }

  lemma NextVisit(r: Request, r': Request)
    requires r.at + 1 < |r.order| && r' == r.(at := r.at + 1)
    ensures r'.order[..r'.at + 1] == r.order[..r.at + 1] + [r'.order[r'.at]]
  {
  }

  /** Along every run: when an attempt fails, the request gives up exactly when the hosts it has entered are all
      those it was given, each as often as it is listed; otherwise it goes on to one more. */
  lemma GivesUpAfterAll(states: seq<State>, steps: seq<Step>, id: int)
    requires Run(states, steps) && Initial(states[0]) && steps != [] && steps[|steps| - 1] == Fail(id)
    ensures var n := |steps| - 1;
            id !in states[n + 1].live
            <==> multiset(Visits(states[..n + 1], steps[..n], id)) == multiset(Asked(steps[..n], id))
    ensures var n := |steps| - 1;
            && 0 <= Held(states[n], id) < |states[n].loads| && states[n].loads[Held(states[n], id)] > 0
            && Held(states[n], id) in Asked(steps[..n], id)
  {
    var n := |steps| - 1;
    var s := states[n];
    RunInit(states, steps, n, states[..n + 1]);
    var r := s.live[id];
    CountersAreGuards(states[..n + 1], steps[..n]);
    VisitsAreOrder(states[..n + 1], steps[..n], id);
    AskedAreHosts(states[..n + 1], steps[..n], id);
    LeaveCounts(s, id);
    HeldIsListed(r);
    AllVisitedIff(r);
  }

  lemma HeldIsListed(r: Request)
    requires r.at < |r.order| && multiset(r.order) == multiset(r.hosts)
    ensures r.order[r.at] in r.hosts
  {
    SameMembers(r.order, r.hosts);
  }

  lemma AllVisitedIff(r: Request)
    requires r.at < |r.order| && multiset(r.order) == multiset(r.hosts)
    ensures multiset(r.order[..r.at + 1]) == multiset(r.hosts) <==> r.at + 1 == |r.order|
  {
    if r.at + 1 == |r.order| { assert r.order[..r.at + 1] == r.order; }
    assert |multiset(r.order)| == |r.order| && |multiset(r.order[..r.at + 1])| == r.at + 1;
  }

  /** Arriving requests join a host that is least loaded at that moment. */
  lemma ArrivesAtLeastLoaded(s: State, id: int, hosts: seq<nat>, s': State)
    requires Valid(s) && Steps(s, Arrive(id, hosts), s')
    ensures LeastOf(hosts, s.loads, Held(s', id)) && s'.loads == Bump(s.loads, Held(s', id))
  {
    FirstIsLeast(hosts, s.loads, s.rr);
  }
}
