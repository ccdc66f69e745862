/** Loads of hosts, and how they grow while requests go to a least-loaded host. */
module Loads {
  ghost predicate InRange(hosts: seq<nat>, loads: seq<nat>)
  {
    forall h :: h in hosts ==> h < |loads|
  }

  function Load(loads: seq<nat>, h: nat): nat { if h < |loads| then loads[h] else 0 }

  ghost predicate LeastOf(hosts: seq<nat>, loads: seq<nat>, h: nat)
  {
    h in hosts && forall x :: x in hosts ==> Load(loads, h) <= Load(loads, x)
  }

  ghost predicate WithinOne(hosts: seq<nat>, loads: seq<nat>)
  {
    forall a, b :: a in hosts && b in hosts ==> Load(loads, a) <= Load(loads, b) + 1
  }

  function Bump(loads: seq<nat>, h: nat): seq<nat>
  {
    if h < |loads| then loads[h := loads[h] + 1] else loads
  }

  /** The loads after `m` arrivals, each at the host `pick` names. */
  function Burst(pick: (seq<nat>, nat) -> nat, next: (seq<nat>, nat) -> nat, loads: seq<nat>, rr: nat, m: nat): seq<nat>
    decreases m
  {
    if m == 0 then loads else Burst(pick, next, Bump(loads, pick(loads, rr)), next(loads, rr), m - 1)
  }

  function Sum(loads: seq<nat>): nat { if loads == [] then 0 else loads[0] + Sum(loads[1..]) }

  lemma {:induction false} SumBump(loads: seq<nat>, h: nat)
    requires h < |loads|
    ensures Sum(Bump(loads, h)) == Sum(loads) + 1
    decreases |loads|
  {
    if h == 0 {
      assert Bump(loads, h)[1..] == loads[1..];
    } else {
      assert Bump(loads, h)[1..] == Bump(loads[1..], h - 1);
      SumBump(loads[1..], h - 1);
    }
  }

  /** Loads that were within one of each other still are, `m` requests more are counted, and hosts that do not
      carry the model are left alone. */
  ghost predicate Grew(hosts: seq<nat>, loads: seq<nat>, loads': seq<nat>, m: nat)
  {
    && |loads'| == |loads| && WithinOne(hosts, loads') && Sum(loads') == Sum(loads) + m
    && forall i :: 0 <= i < |loads| && i !in hosts ==> loads'[i] == loads[i]
  }

  lemma BumpLeast(hosts: seq<nat>, loads: seq<nat>, h: nat)
    requires InRange(hosts, loads) && WithinOne(hosts, loads) && LeastOf(hosts, loads, h)
    ensures Grew(hosts, loads, Bump(loads, h), 1)
  {
    SumBump(loads, h);
  }

  /** `inv` of the loads and the number of arrivals so far passes from each arrival to the next. */
  ghost predicate Passes(pick: (seq<nat>, nat) -> nat, inv: (seq<nat>, nat) -> bool)
  {
    forall loads: seq<nat>, rr: nat, n: nat, n': nat {:trigger inv(loads, n), inv(Bump(loads, pick(loads, rr)), n')} ::
      n' == n + 1 && inv(loads, n) ==> inv(Bump(loads, pick(loads, rr)), n')
  }

  lemma {:induction false} BurstKeeps(pick: (seq<nat>, nat) -> nat, next: (seq<nat>, nat) -> nat,
                                      inv: (seq<nat>, nat) -> bool, loads: seq<nat>, rr: nat, n: nat, m: nat)
    requires Passes(pick, inv) && inv(loads, n)
    ensures inv(Burst(pick, next, loads, rr, m), n + m)
    decreases m
  {
    if m > 0 {
      assert inv(Bump(loads, pick(loads, rr)), n + 1);
      BurstKeeps(pick, next, inv, Bump(loads, pick(loads, rr)), next(loads, rr), n + 1, m - 1);
    }
  }

  lemma GrewOnce(hosts: seq<nat>, loads: seq<nat>, now: seq<nat>, once: seq<nat>, n: nat)
    requires Grew(hosts, loads, now, n) && Grew(hosts, now, once, 1)
    ensures Grew(hosts, loads, once, n + 1)
  {
  }

  ghost predicate PicksLeast(pick: (seq<nat>, nat) -> nat, hosts: seq<nat>)
  {
    forall loads: seq<nat>, rr: nat :: LeastOf(hosts, loads, pick(loads, rr))
  }

  lemma BurstStaysWithinOne(pick: (seq<nat>, nat) -> nat, next: (seq<nat>, nat) -> nat, hosts: seq<nat>,
                            loads: seq<nat>, rr: nat, m: nat)
    requires PicksLeast(pick, hosts) && InRange(hosts, loads) && WithinOne(hosts, loads)
    ensures Grew(hosts, loads, Burst(pick, next, loads, rr, m), m)
  {
    ghost var inv := (now: seq<nat>, n: nat) => Grew(hosts, loads, now, n);
    forall now: seq<nat>, rr: nat, n: nat | inv(now, n) ensures inv(Bump(now, pick(now, rr)), n + 1) {
      BumpLeast(hosts, now, pick(now, rr));
      GrewOnce(hosts, loads, now, Bump(now, pick(now, rr)), n);
    }
    BurstKeeps(pick, next, inv, loads, rr, 0, m);
  }
}
