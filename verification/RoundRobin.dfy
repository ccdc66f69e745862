/** The round-robin cursor on its own: a counter of machine width, read modulo the number of positions. */
module RoundRobin {
  import opened Arithmetic

  const USIZE_LIMIT := 0x1_0000_0000_0000_0000

  function NextCount(rr: nat): nat { if rr + 1 == USIZE_LIMIT then 0 else rr + 1 }

  /** The position after `s`, which starts again at 0 also when the counter wraps. */
  function NextPosition(rr: nat, s: nat, k: nat): nat { if rr + 1 == USIZE_LIMIT || s + 1 == k then 0 else s + 1 }

  /** How many of `m` turns fall on position `j` of `k`; the counter starts at `rr`, on position `s`. */
  function Turns(rr: nat, s: nat, m: nat, k: nat, j: nat): nat
    decreases m
  {
    if m == 0 then 0
    else (if s == j then 1 else 0) + Turns(NextCount(rr), NextPosition(rr, s, k), m - 1, k, j)
  }

  /** The next position is the next counter modulo `k`. */
  lemma NextIsModulo(rr: nat, k: nat)
    requires k > 0 && rr < USIZE_LIMIT
    ensures NextPosition(rr, rr % k, k) == NextCount(rr) % k
  {
    var q, s := rr / k, rr % k;
    assert rr == q * k + s;
    if rr + 1 == USIZE_LIMIT {
      DivMod(0, k, 0, 0);
    } else if s + 1 == k {
      assert (q + 1) * k == q * k + k;
      DivMod(rr + 1, k, q + 1, 0);
    } else {
      DivMod(rr + 1, k, q, s + 1);
    }
  }

  // ------------------------------------------------------------------ fairness

  /** The distance from position `s` forward to position `j` of `k`. */
  function Ahead(s: nat, k: nat, j: nat): int { if j >= s then j - s else j - s + k }

  /** The positions are in step with the counter's range: `a * k` turns from position 0 on are left until the
      wrap, and `total * k` make up the whole range. */
  ghost predicate InStep(rr: nat, s: nat, k: nat, a: nat, total: nat)
  {
    a * k == USIZE_LIMIT - rr + s && total * k == USIZE_LIMIT
  }

  lemma NextInStep(rr: nat, s: nat, k: nat, a: nat, total: nat) returns (a': nat)
    requires s < k && rr < USIZE_LIMIT && InStep(rr, s, k, a, total)
    ensures InStep(NextCount(rr), NextPosition(rr, s, k), k, a', total)
    ensures rr + 1 == USIZE_LIMIT ==> s + 1 == k
  {
    if rr + 1 == USIZE_LIMIT {
      assert (a - 1) * k == a * k - k;
      if a != 1 { Far(a - 1, k); }
      a' := total;
    } else if s + 1 == k {
      Positive(a, k);
      a' := a - 1;
      assert a' * k == a * k - k;
    } else {
      a' := a;
    }
  }

  /** `c` of `m` turns fall on a position that is `d` ahead. */
  ghost predicate Share(d: int, c: nat, m: nat, k: nat)
  {
    d + k * c - k < m <= d + k * c
  }

  lemma ShareOfNone(d: int, k: nat)
    requires 0 <= d < k
    ensures Share(d, 0, 0, k)
  {
  }

  lemma OneMoreTurn(s: nat, s': nat, c: nat, m: nat, k: nat, j: nat)
    requires s < k && j < k && s' == if s + 1 == k then 0 else s + 1
    requires Share(Ahead(s', k, j), c, m, k)
    ensures Share(Ahead(s, k, j), if s == j then c + 1 else c, m + 1, k)
  {
    assert k * (c + 1) == k * c + k;
  }

  lemma LastTurn(s: nat, k: nat, j: nat)
    requires s < k && j < k
    ensures Share(Ahead(s, k, j), if s == j then 1 else 0, 1, k)
  {
  }

  lemma {:induction false} TurnsBound(rr: nat, s: nat, m: nat, k: nat, j: nat, a: nat, total: nat)
    requires s < k && j < k && rr < USIZE_LIMIT && (rr + m <= USIZE_LIMIT || InStep(rr, s, k, a, total))
    ensures Share(Ahead(s, k, j), Turns(rr, s, m, k, j), m, k)
    decreases m
  {
    if m == 0 {
      ShareOfNone(Ahead(s, k, j), k);
    } else if m == 1 {
      LastTurn(s, k, j);
    } else {
      var a' := a;
      if rr + m > USIZE_LIMIT { a' := NextInStep(rr, s, k, a, total); }
      var rr', s' := NextCount(rr), NextPosition(rr, s, k);
      TurnsBound(rr', s', m - 1, k, j, a', total);
      OneMoreTurn(s, s', Turns(rr', s', m - 1, k, j), m - 1, k, j);
    }
  }

  /** `c` is the floor or the ceiling of `m / k`. */
  ghost predicate FairCount(c: nat, m: nat, k: nat)
    requires k > 0
  {
    m / k <= c <= (m + k - 1) / k
  }

  /** Every position gets its fair count. */
  ghost predicate Fair(rr: nat, m: nat, k: nat)
    requires k > 0
  {
    forall j :: 0 <= j < k ==> FairCount(Turns(rr, rr % k, m, k, j), m, k)
  }

  lemma Quotients(m: nat, k: nat, c: nat, d: nat)
    requires d < k && d + k * c - k < m <= d + k * c
    ensures FairCount(c, m, k)
  {
    DivBound(m, k, c);
    DivBelow(m + k - 1, k, c);
  }

  lemma TurnsAreFair(rr: nat, m: nat, k: nat)
    requires k > 0 && rr < USIZE_LIMIT && (rr + m <= USIZE_LIMIT || USIZE_LIMIT % k == 0)
    ensures Fair(rr, m, k)
  {
    var total := USIZE_LIMIT / k;
    forall j | 0 <= j < k ensures FairCount(Turns(rr, rr % k, m, k, j), m, k) {
      assert (total - rr / k) * k == total * k - rr / k * k;
      DivBelow(USIZE_LIMIT, k, rr / k);
      TurnsBound(rr, rr % k, m, k, j, total - rr / k, total);
      Quotients(m, k, Turns(rr, rr % k, m, k, j), Ahead(rr % k, k, j));
    }
  }

  lemma {:induction false} WrapsToZero(rr: nat, s: nat, n: nat, k: nat)
    requires n > 0 && rr + n == USIZE_LIMIT
    ensures Turns(rr, s, n + 1, k, 0) >= 1
    decreases n
  {
    if n == 1 {
      assert Turns(0, 0, 1, k, 0) == 1 + Turns(NextCount(0), NextPosition(0, 0, k), 0, k, 0);
    } else {
      WrapsToZero(rr + 1, NextPosition(rr, s, k), n - 1, k);
    }
  }

  /** Around the wrap position 0 is served twice before some other position is served once. */
  lemma WrapIsUnfair(k: nat)
    requires k > 0 && USIZE_LIMIT % k != 0
    ensures !Fair(USIZE_LIMIT - USIZE_LIMIT % k, USIZE_LIMIT % k + 1, k)
  {
    var r := USIZE_LIMIT % k;
    var rr := USIZE_LIMIT - r;
    DivMod(rr, k, USIZE_LIMIT / k, 0);
    if r == 1 {
      assert Turns(0, 0, 1, k, 0) == 1 + Turns(NextCount(0), NextPosition(0, 0, k), 0, k, 0);
    } else {
      WrapsToZero(rr + 1, NextPosition(rr, 0, k), r - 1, k);
    }
    assert Turns(rr, 0, r + 1, k, 0) >= 2;
    DivBound(r + k, k, 1);
  }

  /** Every run of turns is fair exactly when the number of positions divides the counter's range. */
  lemma FairForeverIff(k: nat)
    requires k > 0
    ensures (forall rr: nat, m: nat :: rr < USIZE_LIMIT ==> Fair(rr, m, k)) <==> USIZE_LIMIT % k == 0
  {
    if USIZE_LIMIT % k == 0 {
      forall rr: nat, m: nat | rr < USIZE_LIMIT ensures Fair(rr, m, k) { TurnsAreFair(rr, m, k); }
    } else {
      WrapIsUnfair(k);
    }
  }

  // ------------------------------------------------------------------ turns taken by hosts

  /** What `m` turns pick, one after the other. */
  function Picks(pick: nat -> nat, next: nat -> nat, rr: nat, m: nat): seq<nat>
    decreases m
  {
    if m == 0 then [] else [pick(rr)] + Picks(pick, next, next(rr), m - 1)
  }

  ghost predicate Distinct(hosts: seq<nat>)
  {
    forall i, j :: 0 <= i < j < |hosts| ==> hosts[i] != hosts[j]
  }

  /** Every turn takes the next of the hosts. */
  ghost predicate TakesTurns(pick: nat -> nat, next: nat -> nat, hosts: seq<nat>)
  {
    hosts != [] && forall rr: nat :: pick(rr) == hosts[rr % |hosts|] && next(rr) == NextCount(rr)
  }

  lemma CountFirst(x: nat, xs: seq<nat>, y: nat)
    ensures multiset([x] + xs)[y] == (if x == y then 1 else 0) + multiset(xs)[y]
  {
  }

  lemma {:induction false} PicksInTurns(pick: nat -> nat, next: nat -> nat, hosts: seq<nat>, rr: nat, m: nat, j: nat)
    requires TakesTurns(pick, next, hosts) && Distinct(hosts) && j < |hosts| && rr < USIZE_LIMIT
    ensures multiset(Picks(pick, next, rr, m))[hosts[j]] == Turns(rr, rr % |hosts|, m, |hosts|, j)
    decreases m
  {
    if m > 0 {
      NextIsModulo(rr, |hosts|);
      PicksInTurns(pick, next, hosts, next(rr), m - 1, j);
      CountFirst(pick(rr), Picks(pick, next, next(rr), m - 1), hosts[j]);
    }
  }

  /** Each host gets its fair count, as long as the cursor does not wrap around, or the
      number of hosts divides its range. */
  lemma FairPicks(pick: nat -> nat, next: nat -> nat, hosts: seq<nat>, rr: nat, m: nat, h: nat)
    requires TakesTurns(pick, next, hosts) && Distinct(hosts) && h in hosts
    requires rr < USIZE_LIMIT && (rr + m <= USIZE_LIMIT || USIZE_LIMIT % |hosts| == 0)
    ensures FairCount(multiset(Picks(pick, next, rr, m))[h], m, |hosts|)
  {
    var j :| 0 <= j < |hosts| && hosts[j] == h;
    TurnsAreFair(rr, m, |hosts|);
    PicksInTurns(pick, next, hosts, rr, m, j);
  }
}
