/** Load balancing between the hosts of a model: order by load, break ties with a round-robin cursor. Requests
    overlapping in time are in `RouterRuns`. */
module Router {
  import opened Loads
  import opened RoundRobin
  import opened Wrappers

  // ------------------------------------------------------------------ ordering

  function Insert(h: nat, sorted: seq<nat>, loads: seq<nat>): seq<nat>
  {
    if sorted == [] || Load(loads, h) <= Load(loads, sorted[0]) then [h] + sorted
    else [sorted[0]] + Insert(h, sorted[1..], loads)
  }

  /** The stable sort by load. */
  function SortByLoad(hosts: seq<nat>, loads: seq<nat>): seq<nat>
  {
    if hosts == [] then [] else Insert(hosts[0], SortByLoad(hosts[1..], loads), loads)
  }

  /** How many of the first hosts have load `v`. */
  function Tied(sorted: seq<nat>, loads: seq<nat>, v: nat): (n: nat)
    ensures n <= |sorted|
  {
    if sorted == [] || Load(loads, sorted[0]) != v then 0 else 1 + Tied(sorted[1..], loads, v)
  }

  function Leaders(hosts: seq<nat>, loads: seq<nat>): nat
  {
    var sorted := SortByLoad(hosts, loads);
    if sorted == [] then 0 else Tied(sorted, loads, Load(loads, sorted[0]))
  }

  function Ordered(hosts: seq<nat>, loads: seq<nat>, rr: nat): seq<nat>
  {
    var sorted, tied := SortByLoad(hosts, loads), Leaders(hosts, loads);
    if tied <= 1 then sorted
    else sorted[rr % tied..tied] + sorted[..rr % tied] + sorted[tied..]
  }

  function NextCursor(hosts: seq<nat>, loads: seq<nat>, rr: nat): nat
  {
    if Leaders(hosts, loads) <= 1 then rr else NextCount(rr)
  }

  lemma RotatedIs(hosts: seq<nat>, loads: seq<nat>, rr: nat, sorted: seq<nat>, tied: nat, start: nat)
    requires sorted == SortByLoad(hosts, loads) && tied == Leaders(hosts, loads) > 1 && start == rr % tied
    ensures start < tied <= |sorted|
    ensures Ordered(hosts, loads, rr) == sorted[start..tied] + sorted[..start] + sorted[tied..]
    ensures NextCursor(hosts, loads, rr) == NextCount(rr)
  {
  }

  ghost predicate Ascending(hosts: seq<nat>, loads: seq<nat>)
  {
    forall i, j :: 0 <= i < j < |hosts| ==> Load(loads, hosts[i]) <= Load(loads, hosts[j])
  }

  /** The hosts with load `v`, in order. */
  function WithLoad(hosts: seq<nat>, loads: seq<nat>, v: nat): seq<nat>
  {
    if hosts == [] then []
    else (if Load(loads, hosts[0]) == v then [hosts[0]] else []) + WithLoad(hosts[1..], loads, v)
  }

  lemma {:induction false} InsertPermutes(h: nat, sorted: seq<nat>, loads: seq<nat>)
    ensures multiset(Insert(h, sorted, loads)) == multiset{h} + multiset(sorted)
    decreases |sorted|
  {
    if sorted != [] {
      assert sorted == [sorted[0]] + sorted[1..];
      InsertPermutes(h, sorted[1..], loads);
    }
  }

  /** `v` is below the whole list: a bound that survives insertion. */
  ghost predicate Above(hosts: seq<nat>, loads: seq<nat>, v: nat)
  {
    forall i :: 0 <= i < |hosts| ==> v <= Load(loads, hosts[i])
  }

  lemma {:induction false} InsertSorts(h: nat, sorted: seq<nat>, loads: seq<nat>, v: nat)
    requires Ascending(sorted, loads) && Above(sorted, loads, v) && v <= Load(loads, h)
    ensures Ascending(Insert(h, sorted, loads), loads) && Above(Insert(h, sorted, loads), loads, v)
    decreases |sorted|
  {
    if sorted != [] && Load(loads, h) > Load(loads, sorted[0]) {
      InsertSorts(h, sorted[1..], loads, Load(loads, sorted[0]));
    }
  }

  lemma {:induction false} InsertIsStable(h: nat, sorted: seq<nat>, loads: seq<nat>, v: nat)
    ensures WithLoad(Insert(h, sorted, loads), loads, v) == WithLoad([h] + sorted, loads, v)
    decreases |sorted|
  {
    assert ([h] + sorted)[1..] == sorted;
    if sorted != [] && Load(loads, h) > Load(loads, sorted[0]) {
      InsertIsStable(h, sorted[1..], loads, v);
      assert ([h] + sorted[1..])[1..] == sorted[1..];
      assert ([sorted[0]] + Insert(h, sorted[1..], loads))[1..] == Insert(h, sorted[1..], loads);
    }
  }

  lemma {:induction false} SortIsStableSort(hosts: seq<nat>, loads: seq<nat>, v: nat)
    ensures var r := SortByLoad(hosts, loads);
            Ascending(r, loads) && multiset(r) == multiset(hosts) && WithLoad(r, loads, v) == WithLoad(hosts, loads, v)
    decreases |hosts|
  {
    if hosts != [] {
      var rest := SortByLoad(hosts[1..], loads);
      SortIsStableSort(hosts[1..], loads, v);
      InsertSorts(hosts[0], rest, loads, 0);
      InsertPermutes(hosts[0], rest, loads);
      InsertIsStable(hosts[0], rest, loads, v);
      WithLoadCons(hosts[0], rest, hosts[1..], loads, v);
      assert hosts == [hosts[0]] + hosts[1..];
    }
  }

  lemma WithLoadCons(h: nat, xs: seq<nat>, ys: seq<nat>, loads: seq<nat>, v: nat)
    requires WithLoad(xs, loads, v) == WithLoad(ys, loads, v)
    ensures WithLoad([h] + xs, loads, v) == WithLoad([h] + ys, loads, v)
  {
    assert ([h] + xs)[1..] == xs && ([h] + ys)[1..] == ys;
  }

  lemma {:induction false} TiedAreFirst(sorted: seq<nat>, loads: seq<nat>, v: nat)
    requires Ascending(sorted, loads) && (sorted != [] ==> v <= Load(loads, sorted[0]))
    ensures sorted[..Tied(sorted, loads, v)] == WithLoad(sorted, loads, v)
    decreases |sorted|
  {
    if sorted != [] {
      assert Ascending(sorted[1..], loads);
      assert forall i :: 0 <= i < |sorted[1..]| ==> Load(loads, sorted[0]) <= Load(loads, sorted[1..][i]);
      TiedAreFirst(sorted[1..], loads, v);
      if Load(loads, sorted[0]) == v {
        assert sorted[..Tied(sorted, loads, v)] == [sorted[0]] + sorted[1..][..Tied(sorted[1..], loads, v)];
      } else {
        NoneWithLoad(sorted, loads, v);
      }
    }
  }

  lemma {:induction false} NoneWithLoad(hosts: seq<nat>, loads: seq<nat>, v: nat)
    requires forall h :: h in hosts ==> Load(loads, h) != v
    ensures WithLoad(hosts, loads, v) == []
    decreases |hosts|
  {
    if hosts != [] {
      assert hosts[0] in hosts;
      NoneWithLoad(hosts[1..], loads, v);
    }
  }

  ghost predicate LeastLoad(hosts: seq<nat>, loads: seq<nat>, v: nat)
  {
    (exists h :: h in hosts && Load(loads, h) == v) && forall h :: h in hosts ==> v <= Load(loads, h)
  }

  lemma SortedLeaders(hosts: seq<nat>, loads: seq<nat>, v: nat)
    requires LeastLoad(hosts, loads, v)
    ensures var s, least := SortByLoad(hosts, loads), WithLoad(hosts, loads, v);
            && s != [] && Load(loads, s[0]) == v && 0 < Leaders(hosts, loads) == |least| == Tied(s, loads, v)
            && s[..|least|] == least
  {
    var s := SortByLoad(hosts, loads);
    SortIsStableSort(hosts, loads, v);
    var h :| h in hosts && Load(loads, h) == v;
    assert h in multiset(hosts) && h in multiset(s);
    var i :| 0 <= i < |s| && s[i] == h;
    assert s[0] in multiset(s) && s[0] in hosts;
    TiedAreFirst(s, loads, v);
  }

  lemma RotatedPermutes(s: seq<nat>, n: nat, tied: nat)
    requires n <= tied <= |s|
    ensures multiset(s[n..tied] + s[..n] + s[tied..]) == multiset(s)
  {
    assert s == s[..n] + s[n..tied] + s[tied..];
  }

  /** The order is a load-sorted permutation of the candidates, and its first host is the cursor's choice among the
      least-loaded candidates in their own order. */
  lemma OrderIsBalanced(hosts: seq<nat>, loads: seq<nat>, rr: nat, v: nat)
    requires LeastLoad(hosts, loads, v)
    ensures var r, least := Ordered(hosts, loads, rr), WithLoad(hosts, loads, v);
            && Ascending(r, loads) && multiset(r) == multiset(hosts) && r != []
            && least != [] && Leaders(hosts, loads) == |least| && r[0] == least[rr % |least|]
  {
    var s, least := SortByLoad(hosts, loads), WithLoad(hosts, loads, v);
    SortIsStableSort(hosts, loads, v);
    SortedLeaders(hosts, loads, v);
    var tied := |least|;
    if tied > 1 {
      var n := rr % tied;
      RotatedIs(hosts, loads, rr, s, tied, n);
      RotatedIsBalanced(s, loads, v, tied, n, Ordered(hosts, loads, rr));
      assert s[..tied][n] == least[n];
    } else {
      assert s[..tied][0] == least[0];
    }
  }

  lemma RotatedIsBalanced(s: seq<nat>, loads: seq<nat>, v: nat, tied: nat, n: nat, r: seq<nat>)
    requires Ascending(s, loads) && n < tied == Tied(s, loads, v) && r == s[n..tied] + s[..n] + s[tied..]
    ensures Ascending(r, loads) && multiset(r) == multiset(s) && r != [] && r[0] == s[n]
  {
    RotatedPermutes(s, n, tied);
    RotatedAscends(s, loads, v, tied, n);
  }

  lemma RotatedAscends(s: seq<nat>, loads: seq<nat>, v: nat, tied: nat, n: nat)
    requires Ascending(s, loads) && n < tied == Tied(s, loads, v)
    ensures Ascending(s[n..tied] + s[..n] + s[tied..], loads)
  {
    TiedHaveLoad(s, loads, v);
    var r := s[n..tied] + s[..n] + s[tied..];
    assert forall i :: 0 <= i < tied ==> Load(loads, r[i]) == v;
    assert forall i :: tied <= i < |r| ==> r[i] == s[i];
  }

  lemma {:induction false} TiedHaveLoad(s: seq<nat>, loads: seq<nat>, v: nat)
    ensures forall i :: 0 <= i < Tied(s, loads, v) ==> Load(loads, s[i]) == v
    decreases |s|
  {
    if s != [] { TiedHaveLoad(s[1..], loads, v); }
  }

  // ------------------------------------------------------------------ the router

  class InferenceRouter {
    /** Requests in flight, by host. */
    var inFlight: seq<nat>
    var rr: nat

    constructor (hosts: nat)
      ensures |inFlight| == hosts && (forall h :: 0 <= h < hosts ==> inFlight[h] == 0) && rr == 0
    {
      inFlight, rr := seq(hosts, _ => 0), 0;
    }

    method OrderByLoad(candidates: seq<nat>) returns (ordered: seq<nat>)
      requires InRange(candidates, inFlight)
      modifies this`rr
      ensures ordered == Ordered(candidates, inFlight, old(rr)) && rr == NextCursor(candidates, inFlight, old(rr))
    {
      ordered := SortByLoad(candidates, inFlight);
      if |ordered| > 1 {
        var min, tied := Load(inFlight, ordered[0]), 0;
        assert ordered[0..] == ordered;
        while tied < |ordered| && Load(inFlight, ordered[tied]) == min
          invariant tied <= |ordered| && Tied(ordered, inFlight, min) == tied + Tied(ordered[tied..], inFlight, min)
        {
          assert ordered[tied..][1..] == ordered[tied + 1..];
          tied := tied + 1;
        }
        assert tied == Leaders(candidates, inFlight);
        if tied > 1 {
          var start := rr % tied;
          RotatedIs(candidates, inFlight, rr, ordered, tied, start);
          rr := NextCount(rr);
          ordered := ordered[start..tied] + ordered[..start] + ordered[tied..];
        }
      }
    }

    /** The host loop: hosts in order until one answers. `answers(i)` is whether the i-th attempt succeeds. */
    method TryHosts(order: seq<nat>, answers: nat -> bool) returns (answered: Option<nat>, tried: seq<nat>)
      requires InRange(order, inFlight)
      modifies this`inFlight
      ensures inFlight == old(inFlight)
      ensures tried <= order && forall i :: 0 <= i < |tried| - 1 ==> !answers(i)
      ensures answered.Some? ==> tried != [] && tried[|tried| - 1] == answered.value && answers(|tried| - 1)
      ensures answered.None? ==> tried == order && forall i :: 0 <= i < |tried| ==> !answers(i)
    {
      for i := 0 to |order|
        invariant inFlight == old(inFlight)
        invariant forall n :: 0 <= n < i ==> !answers(n)
      {
        assert order[i] in order;
        var ok := Attempt(order[i], answers(i));
        if ok { return Some(order[i]), order[..i + 1]; }
      }
      return None, order;
    }

    /** One attempt, inside a guard. */
    method Attempt(idx: nat, answer: bool) returns (ok: bool)
      requires idx < |inFlight|
      modifies this`inFlight
      ensures ok == answer && inFlight == old(inFlight)
    {
      inFlight := inFlight[idx := inFlight[idx] + 1];
      ok := answer;
      inFlight := inFlight[idx := inFlight[idx] - 1];
    }

    /** A request that runs alone. Without an answer every host was tried as often as it is listed, and every
        guard is dropped again. */
    method Chat(hosts: seq<nat>, answers: nat -> bool) returns (answered: Option<nat>, tried: seq<nat>)
      requires InRange(hosts, inFlight)
      modifies this
      ensures inFlight == old(inFlight) && rr == NextCursor(hosts, inFlight, old(rr))
      ensures tried <= Ordered(hosts, inFlight, old(rr))
      ensures forall i :: 0 <= i < |tried| - 1 ==> !answers(i)
      ensures answered.Some? ==> tried != [] && tried[|tried| - 1] == answered.value && answers(|tried| - 1)
      ensures answered.None? ==> multiset(tried) == multiset(hosts) && forall i :: 0 <= i < |tried| ==> !answers(i)
    {
      OrderPermutes(hosts, inFlight, rr);
      var order := OrderByLoad(hosts);
      SameMembers(order, hosts);
      answered, tried := TryHosts(order, answers);
    }

    /** A request that is answered at the first attempt. */
    method ServeOne(hosts: seq<nat>) returns (host: nat)
      requires hosts != [] && InRange(hosts, inFlight)
      modifies this
      ensures inFlight == old(inFlight) && rr == NextCursor(hosts, inFlight, old(rr))
      ensures host == First(hosts, inFlight, old(rr))
    {
      OrderPermutes(hosts, inFlight, rr);
      var answered, tried := Chat(hosts, _ => true);
      host := tried[0];
    }

    /** Such requests one after the other, all over the same hosts. */
    method Serve(hosts: seq<nat>, m: nat) returns (served: seq<nat>)
      requires hosts != [] && InRange(hosts, inFlight)
      modifies this
      ensures inFlight == old(inFlight)
      ensures served == Picks(Picker(hosts, inFlight), Stepper(hosts, inFlight), old(rr), m)
    {
      served := [];
      ghost var pick, next := Picker(hosts, inFlight), Stepper(hosts, inFlight);
      ghost var all := Picks(pick, next, rr, m);
      for i := 0 to m
        invariant inFlight == old(inFlight) && Serving(pick, next, rr, m - i, served, all)
      {
        ghost var cursor := rr;
        var host := ServeOne(hosts);
        ServingMore(pick, next, cursor, m - i, served, all, host, rr);
        served := served + [host];
      }
      assert served + [] == served;
    }
  }

  /** The hosts served so far, and those the requests to come will pick. */
  ghost predicate Serving(pick: nat -> nat, next: nat -> nat, rr: nat, left: nat, served: seq<nat>, all: seq<nat>)
  {
    served + Picks(pick, next, rr, left) == all
  }

  lemma ServingMore(pick: nat -> nat, next: nat -> nat, rr: nat, left: nat, served: seq<nat>, all: seq<nat>, host: nat,
                    rr': nat)
    requires left > 0 && Serving(pick, next, rr, left, served, all) && host == pick(rr) && rr' == next(rr)
    ensures Serving(pick, next, rr', left - 1, served + [host], all)
  {
    var rest := Picks(pick, next, rr', left - 1);
    assert served + ([host] + rest) == served + [host] + rest;
  }

  lemma SameMembers(xs: seq<nat>, ys: seq<nat>)
    requires multiset(xs) == multiset(ys)
    ensures forall x :: x in xs <==> x in ys
  {
    forall x ensures x in xs <==> x in ys {
      assert x in multiset(xs) <==> x in multiset(ys);
    }
  }

  lemma OrderPermutes(hosts: seq<nat>, loads: seq<nat>, rr: nat)
    ensures multiset(Ordered(hosts, loads, rr)) == multiset(hosts)
  {
    if hosts != [] {
      var v := LeastExists(hosts, loads);
      OrderIsBalanced(hosts, loads, rr, v);
    }
  }

  lemma {:induction false} LeastExists(hosts: seq<nat>, loads: seq<nat>) returns (v: nat)
    requires hosts != []
    ensures LeastLoad(hosts, loads, v)
    decreases |hosts|
  {
    v := Load(loads, hosts[0]);
    assert hosts == [hosts[0]] + hosts[1..];
    if |hosts| > 1 {
      var w := LeastExists(hosts[1..], loads);
      if w < v { v := w; }
    }
  }

  // ------------------------------------------------------------------ a fair share of sequential requests

  function First(hosts: seq<nat>, loads: seq<nat>, rr: nat): nat
  {
    var order := Ordered(hosts, loads, rr);
    if order == [] then 0 else order[0]
  }

  ghost predicate Level(hosts: seq<nat>, loads: seq<nat>)
  {
    forall a, b :: a in hosts && b in hosts ==> Load(loads, a) == Load(loads, b)
  }

  lemma {:induction false} AllWithLoad(hosts: seq<nat>, loads: seq<nat>, v: nat)
    requires forall h :: h in hosts ==> Load(loads, h) == v
    ensures WithLoad(hosts, loads, v) == hosts
    decreases |hosts|
  {
    if hosts != [] {
      assert hosts == [hosts[0]] + hosts[1..];
      AllWithLoad(hosts[1..], loads, v);
    }
  }

  lemma LevelTurn(hosts: seq<nat>, loads: seq<nat>, rr: nat)
    requires |hosts| > 1 && Level(hosts, loads)
    ensures First(hosts, loads, rr) == hosts[rr % |hosts|] && NextCursor(hosts, loads, rr) == NextCount(rr)
  {
    var v := Load(loads, hosts[0]);
    assert hosts[0] in hosts;
    AllWithLoad(hosts, loads, v);
    OrderIsBalanced(hosts, loads, rr, v);
  }

  function Picker(hosts: seq<nat>, loads: seq<nat>): nat -> nat { (rr: nat) => First(hosts, loads, rr) }

  function Stepper(hosts: seq<nat>, loads: seq<nat>): nat -> nat { (rr: nat) => NextCursor(hosts, loads, rr) }

  /** `m` sequential successful requests over equally loaded hosts: each host serves its fair share. */
  lemma SequentialShare(hosts: seq<nat>, loads: seq<nat>, rr: nat, m: nat, h: nat)
    requires |hosts| > 1 && Level(hosts, loads) && Distinct(hosts) && h in hosts
    requires rr < USIZE_LIMIT && (rr + m <= USIZE_LIMIT || USIZE_LIMIT % |hosts| == 0)
    ensures FairCount(multiset(Picks(Picker(hosts, loads), Stepper(hosts, loads), rr, m))[h], m, |hosts|)
  {
    TakesTheirTurns(hosts, loads);
    FairPicks(Picker(hosts, loads), Stepper(hosts, loads), hosts, rr, m, h);
  }

  lemma TakesTheirTurns(hosts: seq<nat>, loads: seq<nat>)
    requires |hosts| > 1 && Level(hosts, loads)
    ensures TakesTurns(Picker(hosts, loads), Stepper(hosts, loads), hosts)
  {
    forall rr: nat
      ensures Picker(hosts, loads)(rr) == hosts[rr % |hosts|] && Stepper(hosts, loads)(rr) == NextCount(rr)
    {
      LevelTurn(hosts, loads, rr);
    }
  }

  /** Every host serves the floor or the ceiling of `m / |hosts|`. */
  ghost predicate SharedFairly(hosts: seq<nat>, loads: seq<nat>, rr: nat, m: nat)
    requires hosts != []
  {
    forall h :: h in hosts ==>
      FairCount(multiset(Picks(Picker(hosts, loads), Stepper(hosts, loads), rr, m))[h], m, |hosts|)
  }

  /** From every cursor and for any number of requests, exactly when the number of hosts divides the cursor's range. */
  lemma ShareForeverIff(hosts: seq<nat>, loads: seq<nat>)
    requires |hosts| > 1 && Level(hosts, loads) && Distinct(hosts)
    ensures (forall rr: nat, m: nat :: rr < USIZE_LIMIT ==> SharedFairly(hosts, loads, rr, m))
            <==> USIZE_LIMIT % |hosts| == 0
  {
    var k := |hosts|;
    if USIZE_LIMIT % k == 0 {
      forall rr: nat, m: nat | rr < USIZE_LIMIT ensures SharedFairly(hosts, loads, rr, m) {
        forall h | h in hosts { SequentialShare(hosts, loads, rr, m, h); }
      }
    } else {
      WrapIsUnfair(k);
      UnfairTurnsAreShares(hosts, loads, USIZE_LIMIT - USIZE_LIMIT % k, USIZE_LIMIT % k + 1);
    }
  }

  lemma UnfairTurnsAreShares(hosts: seq<nat>, loads: seq<nat>, rr: nat, m: nat)
    requires |hosts| > 1 && Level(hosts, loads) && Distinct(hosts) && rr < USIZE_LIMIT && !Fair(rr, m, |hosts|)
    ensures !SharedFairly(hosts, loads, rr, m)
  {
    var k := |hosts|;
    var j :| 0 <= j < k && !FairCount(Turns(rr, rr % k, m, k, j), m, k);
    TakesTheirTurns(hosts, loads);
    PicksInTurns(Picker(hosts, loads), Stepper(hosts, loads), hosts, rr, m, j);
    assert hosts[j] in hosts;
  }

  // ------------------------------------------------------------------ arrivals without completions

  function LoadPicker(hosts: seq<nat>): (seq<nat>, nat) -> nat
  {
    (loads: seq<nat>, rr: nat) => First(hosts, loads, rr)
  }

  function LoadStepper(hosts: seq<nat>): (seq<nat>, nat) -> nat
  {
    (loads: seq<nat>, rr: nat) => NextCursor(hosts, loads, rr)
  }

  lemma FirstIsLeast(hosts: seq<nat>, loads: seq<nat>, rr: nat)
    requires hosts != []
    ensures First(hosts, loads, rr) in hosts
    ensures forall h :: h in hosts ==> Load(loads, First(hosts, loads, rr)) <= Load(loads, h)
  {
    var v := LeastExists(hosts, loads);
    OrderIsBalanced(hosts, loads, rr, v);
    var order := Ordered(hosts, loads, rr);
    SameMembers(order, hosts);
    forall h | h in hosts ensures Load(loads, order[0]) <= Load(loads, h) {
      var i :| 0 <= i < |order| && order[i] == h;
    }
  }

  /** Requests that arrive and do not finish keep loads within one of each other. */
  lemma ArrivalsStayWithinOne(hosts: seq<nat>, loads: seq<nat>, rr: nat, m: nat)
    requires hosts != [] && InRange(hosts, loads) && WithinOne(hosts, loads)
    ensures Grew(hosts, loads, Burst(LoadPicker(hosts), LoadStepper(hosts), loads, rr, m), m)
  {
    forall loads: seq<nat>, rr: nat ensures LeastOf(hosts, loads, LoadPicker(hosts)(loads, rr)) {
      FirstIsLeast(hosts, loads, rr);
    }
    BurstStaysWithinOne(LoadPicker(hosts), LoadStepper(hosts), hosts, loads, rr, m);
  }
}
