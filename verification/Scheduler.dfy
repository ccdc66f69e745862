/** The scheduler object of one daemon and the loops that drive it, proved against the protocol's steps: what a call
    does to the leases bucket, and that a poll round, a heartbeat, a completion and a boot are runs of
    `LeaseProtocol`. */
module Scheduler {
  import opened Wrappers
  import opened LeaseProtocol

  /** A request to the KV service; `down` holds those that currently fail. A create can also take effect and lose its
      acknowledgement (`AckOf`). */
  datatype Request =
    | CreateOf(key: string)
    | AckOf(key: string)
    | PutOf(key: string)
    | PurgeOf(key: string)
    | ListKeys
    | ListOf(key: string)

  function AtLeastOne(slots: nat): nat { if slots == 0 then 1 else slots }

  /** A create of the key takes effect. */
  predicate Creates(kv: Bucket, down: set<Request>, key: string) { key !in kv && CreateOf(key) !in down }

  /** And the caller gets to know. */
  predicate CanTake(kv: Bucket, down: set<Request>, key: string) { Creates(kv, down, key) && AckOf(key) !in down }

  function AfterCreate(kv: Bucket, down: set<Request>, clock: nat, key: string, run: string): Bucket
  {
    if Creates(kv, down, key) then kv[key := Entry(run, clock)] else kv
  }

  class NatsScheduler {
    var leases: Bucket
    var clock: nat
    var down: set<Request>

    constructor (leases: Bucket, clock: nat, down: set<Request>)
      ensures this.leases == leases && this.clock == clock && this.down == down
    {
      this.leases, this.clock, this.down := leases, clock, down;
    }

    method Create(key: string, run: string) returns (ok: bool)
      modifies this`leases
      ensures ok <==> CanTake(old(leases), down, key)
      ensures leases == AfterCreate(old(leases), down, clock, key, run)
    {
      if key in leases || CreateOf(key) in down { return false; }
      leases := leases[key := Entry(run, clock)];
      return AckOf(key) !in down;
    }

    /** A claim that is not acknowledged counts as somebody else's, though the key may be there now. */
    method TryClaim(run: string) returns (claimed: bool)
      modifies this`leases
      ensures claimed <==> CanTake(old(leases), down, LeaseKey(run))
      ensures leases == AfterCreate(old(leases), down, clock, LeaseKey(run), run)
    {
      claimed := Create(LeaseKey(run), run);
    }

    method ReleaseLease(run: string) returns (ok: bool)
      modifies this`leases
      ensures ok <==> PurgeOf(LeaseKey(run)) !in down
      ensures leases == Purge(old(leases), LeaseKey(run), ok)
    {
      ok := PurgeOf(LeaseKey(run)) !in down;
      if ok { leases := leases - {LeaseKey(run)}; }
    }

    /** A renewal is a blind put: it succeeds, and brings the key back, even after a purge. */
    method RenewLease(run: string) returns (ok: bool)
      modifies this`leases
      ensures ok <==> PutOf(LeaseKey(run)) !in down
      ensures leases == if ok then old(leases)[LeaseKey(run) := Entry(run, clock)] else old(leases)
    {
      ok := PutOf(LeaseKey(run)) !in down;
      if ok { leases := leases[LeaseKey(run) := Entry(run, clock)]; }
    }

    /** Takes the lowest slot that can be taken. Below it, creates that took effect unacknowledged leave their keys
        behind; nothing else is touched. */
    method TryAcquireExecutionSlot(run: string, slots: nat) returns (slot: Option<nat>)
      modifies this`leases
      ensures slot.Some? ==> slot.value < AtLeastOne(slots) && CanTake(old(leases), down, SlotKey(slot.value))
      ensures forall i: nat :: i < Tried(slot, AtLeastOne(slots)) ==>
                (slot == Some(i) || !CanTake(old(leases), down, SlotKey(i)))
      ensures leases == SlotsCreated(old(leases), down, clock, run, Tried(slot, AtLeastOne(slots)))
    {
      for i := 0 to AtLeastOne(slots)
        invariant leases == SlotsCreated(old(leases), down, clock, run, i)
        invariant forall j: nat :: j < i ==> !CanTake(old(leases), down, SlotKey(j))
      {
        SlotsCreatedAt(old(leases), down, clock, run, i, i);
        var ok := Create(SlotKey(i), run);
        if ok { return Some(i); }
      }
      return None;
    }

    method ReleaseExecutionSlot(slot: nat)
      modifies this`leases
      ensures leases == Purge(old(leases), SlotKey(slot), PurgeOf(SlotKey(slot)) !in down)
    {
      if PurgeOf(SlotKey(slot)) !in down { leases := leases - {SlotKey(slot)}; }
    }

    method RenewExecutionSlot(slot: nat, run: string) returns (ok: bool)
      modifies this`leases
      ensures ok <==> PutOf(SlotKey(slot)) !in down
      ensures leases == if ok then old(leases)[SlotKey(slot) := Entry(run, clock)] else old(leases)
    {
      ok := PutOf(SlotKey(slot)) !in down;
      if ok { leases := leases[SlotKey(slot) := Entry(run, clock)]; }
    }

    /** Boot purge. The count is of purges issued: a purge that fails is counted too. */
    method ReleaseAllLeases() returns (issued: Option<nat>)
      modifies this`leases
      ensures issued.None? <==> ListKeys in down
      ensures leases == Only(old(leases), Survivors(old(leases), down))
      ensures issued.Some? ==> issued.value == |Listed(old(leases), down)|
    {
      if ListKeys in down {
        AllSurvive(leases, down);
        return None;
      }
      ghost var kv := leases;
      var n, keys := 0, leases.Keys;
      PurgeStarts(kv, down);
      while keys != {}
        invariant Purging(kv, down, keys, leases, n)
        decreases keys
      {
        var key :| key in keys;
        PurgeOne(kv, down, keys, leases, n, key);
        keys := keys - {key};
        if ListOf(key) in down { continue; }
        if PurgeOf(key) !in down { leases := leases - {key}; }
        n := n + 1;
      }
      PurgeEnds(kv, down, leases, n);
      return Some(n);
    }
  }

  function Only(kv: Bucket, keys: set<string>): Bucket { map k | k in kv && k in keys :: kv[k] }

  lemma AllSurvive(kv: Bucket, down: set<Request>)
    requires ListKeys in down
    ensures Only(kv, Survivors(kv, down)) == kv
  {
  }

  /** With the keys `todo` still to go: what is left of the bucket, and how many purges were issued. */
  ghost predicate Purging(kv: Bucket, down: set<Request>, todo: set<string>, leases: Bucket, n: nat)
  {
    todo <= kv.Keys && leases == Only(kv, todo + Survivors(kv, down)) && n == |Listed(kv, down) - todo|
  }

  lemma PurgeStarts(kv: Bucket, down: set<Request>)
    ensures Purging(kv, down, kv.Keys, kv, 0)
  {
    assert Listed(kv, down) - kv.Keys == {};
  }

  lemma PurgeOne(kv: Bucket, down: set<Request>, todo: set<string>, leases: Bucket, n: nat, key: string)
    requires Purging(kv, down, todo, leases, n) && key in todo && ListKeys !in down
    ensures if ListOf(key) in down then Purging(kv, down, todo - {key}, leases, n)
            else Purging(kv, down, todo - {key}, if PurgeOf(key) in down then leases else leases - {key}, n + 1)
  {
    var listed := Listed(kv, down);
    if ListOf(key) in down {
      assert listed - (todo - {key}) == listed - todo;
    } else {
      assert listed - (todo - {key}) == (listed - todo) + {key};
    }
  }

  lemma PurgeEnds(kv: Bucket, down: set<Request>, leases: Bucket, n: nat)
    requires Purging(kv, down, {}, leases, n)
    ensures leases == Only(kv, Survivors(kv, down)) && n == |Listed(kv, down)|
  {
    assert {} + Survivors(kv, down) == Survivors(kv, down) && Listed(kv, down) - {} == Listed(kv, down);
  }

  /** Keys a boot purge does not remove: not listed, or not purged. */
  function Survivors(kv: Bucket, down: set<Request>): set<string>
  {
    set k | k in kv && (ListKeys in down || ListOf(k) in down || PurgeOf(k) in down)
  }

  function Listed(kv: Bucket, down: set<Request>): set<string> { set k | k in kv && ListOf(k) !in down }

  // ------------------------------------------------------------------ slots

  /** How many slots are tried until `slot` is taken, or all `n`. */
  function Tried(slot: Option<nat>, n: nat): nat { if slot.Some? then slot.value + 1 else n }

  /** The bucket after creates of the first `n` slot keys. */
  function SlotsCreated(kv: Bucket, down: set<Request>, clock: nat, run: string, n: nat): Bucket
    decreases n
  {
    if n == 0 then kv else AfterCreate(SlotsCreated(kv, down, clock, run, n - 1), down, clock, SlotKey(n - 1), run)
  }

  /** Creates of other slots make no difference to a slot. */
  lemma {:induction false} SlotsCreatedAt(kv: Bucket, down: set<Request>, clock: nat, run: string, n: nat, i: nat)
    requires n <= i
    ensures SlotKey(i) in SlotsCreated(kv, down, clock, run, n) <==> SlotKey(i) in kv
    decreases n
  {
    if n > 0 {
      SlotsCreatedAt(kv, down, clock, run, n - 1, i);
      if SlotKey(n - 1) == SlotKey(i) { SlotKeysDiffer(n - 1, i); }
    }
  }

  /** What the creates of slot keys leave in the bucket: all that was there, as it was, and new keys of slots only. */
  lemma {:induction false} SlotsCreatedKeep(kv: Bucket, down: set<Request>, clock: nat, run: string, n: nat,
                                            key: string)
    ensures var kv' := SlotsCreated(kv, down, clock, run, n);
            && (key in kv ==> key in kv' && kv'[key] == kv[key])
            && (key in kv' && key !in kv ==> exists i: nat :: i < n && key == SlotKey(i))
    decreases n
  {
    if n > 0 { SlotsCreatedKeep(kv, down, clock, run, n - 1, key); }
  }

  /** The lowest slot in `[i, n)` that can be taken. */
  function FreeSlot(kv: Bucket, down: set<Request>, i: nat, n: nat): (r: Option<nat>)
    ensures r.Some? ==> i <= r.value < n && CanTake(kv, down, SlotKey(r.value))
    ensures forall j :: i <= j < (if r.Some? then r.value else n) ==> !CanTake(kv, down, SlotKey(j))
    decreases if i < n then n - i else 0
  {
    if i >= n then None
    else if CanTake(kv, down, SlotKey(i)) then Some(i)
    else FreeSlot(kv, down, i + 1, n)
  }

  // ------------------------------------------------------------------ poll round

  datatype Spawned = Spawned(task: string, slot: nat)

  /** The bucket after scanning for a slot. */
  function Scanned(kv: Bucket, down: set<Request>, clock: nat, task: string, n: nat): Bucket
  {
    SlotsCreated(kv, down, clock, task, Tried(FreeSlot(kv, down, 0, n), n))
  }

  /** What a poll round spawns from the pending tasks on, and the bucket it leaves. `admit` is the
      resource check taken before each task. */
  function Poll(kv: Bucket, down: set<Request>, clock: nat, pending: seq<string>, admit: nat -> bool, slots: nat,
                i: nat)
    : (seq<Spawned>, Bucket)
    decreases |pending|
  {
    if pending == [] || !admit(i) then ([], kv)
    else if pending[0] == "" then Poll(kv, down, clock, pending[1..], admit, slots, i + 1)
    else
      var task, n := pending[0], AtLeastOne(slots);
      var claimed := AfterCreate(kv, down, clock, LeaseKey(task), task);
      if !CanTake(kv, down, LeaseKey(task)) then Poll(claimed, down, clock, pending[1..], admit, slots, i + 1)
      else
        var scanned := Scanned(claimed, down, clock, task, n);
        match FreeSlot(claimed, down, 0, n)
        case None => ([], Purge(scanned, LeaseKey(task), PurgeOf(LeaseKey(task)) !in down))
        case Some(slot) =>
          var rest := Poll(scanned, down, clock, pending[1..], admit, slots, i + 1);
          ([Spawned(task, slot)] + rest.0, rest.1)
  }

  lemma {:induction false} FreeSlotIs(kv: Bucket, down: set<Request>, i: nat, n: nat, slot: Option<nat>)
    requires i <= n && (slot.Some? ==> i <= slot.value < n && CanTake(kv, down, SlotKey(slot.value)))
    requires forall j: nat :: i <= j < Tried(slot, n) ==> (slot == Some(j) || !CanTake(kv, down, SlotKey(j)))
    ensures FreeSlot(kv, down, i, n) == slot
    decreases n - i
  {
    if i < n && slot != Some(i) { FreeSlotIs(kv, down, i + 1, n, slot); }
  }

  method PollRound(sched: NatsScheduler, pending: seq<string>, admit: nat -> bool, slots: nat)
    returns (spawned: seq<Spawned>)
    modifies sched`leases
    ensures (spawned, sched.leases) == Poll(old(sched.leases), sched.down, sched.clock, pending, admit, slots, 0)
  {
    spawned := [];
    ghost var all := Poll(sched.leases, sched.down, sched.clock, pending, admit, slots, 0);
    assert pending[0..] == pending;
    for i := 0 to |pending|
      invariant Polling(all, spawned, Poll(sched.leases, sched.down, sched.clock, pending[i..], admit, slots, i))
    {
      assert pending[i..][1..] == pending[i + 1..];
      if !admit(i) { break; }
      var task := pending[i];
      if task == "" { continue; }
      var claimed := sched.TryClaim(task);
      if !claimed { continue; }
      ghost var held := sched.leases;
      var slot := sched.TryAcquireExecutionSlot(task, slots);
      FreeSlotIs(held, sched.down, 0, AtLeastOne(slots), slot);
      match slot {
        case Some(n) =>
          PollingMore(all, spawned, Spawned(task, n),
                      Poll(sched.leases, sched.down, sched.clock, pending[i + 1..], admit, slots, i + 1));
          spawned := spawned + [Spawned(task, n)];
        case None =>
          var _ := sched.ReleaseLease(task);
          break;
      }
    }
    assert spawned + [] == spawned;
  }

  /** What a round has spawned, and what the rest of it will. */
  ghost predicate Polling(all: (seq<Spawned>, Bucket), spawned: seq<Spawned>, rest: (seq<Spawned>, Bucket))
  {
    all.0 == spawned + rest.0 && all.1 == rest.1
  }

  lemma PollingMore(all: (seq<Spawned>, Bucket), spawned: seq<Spawned>, one: Spawned, rest: (seq<Spawned>, Bucket))
    requires Polling(all, spawned, ([one] + rest.0, rest.1))
    ensures Polling(all, spawned + [one], rest)
  {
    assert spawned + ([one] + rest.0) == spawned + [one] + rest.0;
  }

  /** The actors of a protocol state after one daemon spawned `spawned` as actors `a`, `a + 1`, ... */
  ghost predicate SpawnedAs(s: State, s1: State, spawned: seq<Spawned>, a: nat)
  {
    && (forall b :: b in s1.actors <==> b in s.actors || a <= b < a + |spawned|)
    && (forall b :: b in s.actors ==> b in s1.actors && s1.actors[b] == s.actors[b])
    && (forall b :: a <= b < a + |spawned| ==>
          s1.LiveAt(b) && s1.actors[b].task == spawned[b - a].task && s1.actors[b].stage.slot == spawned[b - a].slot)
  }

  // ------------------------------------------------------------------ a poll round is a run of the protocol

  function ReplyOf(kv: Bucket, down: set<Request>, key: string): Reply
  {
    if !Creates(kv, down, key) then Refused else if AckOf(key) in down then Lost else Done
  }

  /** The first `n` slots tried, none of them taken. */
  lemma {:induction false} ScanIsProtocolRun(c: Config, s: State, down: set<Request>, a: nat,
                                             n: nat) returns (steps: seq<Step>)
    requires a in s.actors && s.actors[a].stage.Claimed? && s.actors[a].stage.next == 0 && n <= s.actors[a].stage.cap
    requires forall i: nat :: i < n ==> !CanTake(s.kv, down, SlotKey(i))
    ensures Valid(c, s, steps)
    ensures var x := s.actors[a];
            Run(c, s, steps) == State(s.now, SlotsCreated(s.kv, down, s.now, x.task, n),
                                      s.actors[a := x.(stage := Claimed(n, x.stage.cap))])
    decreases n
  {
    var x := s.actors[a];
    if n == 0 {
      steps := [];
      assert s.actors[a := x] == s.actors;
    } else {
      var before := ScanIsProtocolRun(c, s, down, a, n - 1);
      var s1 := Run(c, s, before);
      SlotsCreatedAt(s.kv, down, s.now, x.task, n - 1, n - 1);
      var step := TrySlot(a, ReplyOf(s1.kv, down, SlotKey(n - 1)));
      RunCons(c, s1, step, []);
      RunConcat(c, s, before, [step] + []);
      steps := before + ([step] + []);
      var y := x.(stage := Claimed(n, x.stage.cap));
      assert s1.actors[a := y] == s.actors[a := y];
    }
  }

  /** Scanning for a slot and taking the lowest one. */
  lemma TakeIsProtocolRun(c: Config, s: State, down: set<Request>, a: nat, n: nat) returns (steps: seq<Step>)
    requires a in s.actors && s.actors[a].stage == Claimed(0, n) && FreeSlot(s.kv, down, 0, n).Some?
    ensures Valid(c, s, steps)
    ensures var x, slot := s.actors[a], FreeSlot(s.kv, down, 0, n).value;
            Run(c, s, steps) == State(s.now, Scanned(s.kv, down, s.now, x.task, n),
                                      s.actors[a := x.(stage := Live(slot), slotBeat := s.now, slotFails := 0)])
  {
    var x, slot := s.actors[a], FreeSlot(s.kv, down, 0, n).value;
    var scan := ScanIsProtocolRun(c, s, down, a, slot);
    var s1 := Run(c, s, scan);
    SlotsCreatedAt(s.kv, down, s.now, x.task, slot, slot);
    RunCons(c, s1, TrySlot(a, Done), []);
    RunConcat(c, s, scan, [TrySlot(a, Done)] + []);
    steps := scan + ([TrySlot(a, Done)] + []);
    var y := x.(stage := Live(slot), slotBeat := s.now, slotFails := 0);
    assert s1.actors[a := y] == s.actors[a := y];
  }

  lemma GiveUpIsProtocolRun(c: Config, s: State, down: set<Request>, a: nat, n: nat,
                            ok: bool) returns (steps: seq<Step>)
    requires a in s.actors && s.actors[a].stage == Claimed(0, n) && FreeSlot(s.kv, down, 0, n).None?
    ensures Valid(c, s, steps)
    ensures Run(c, s, steps) ==
              State(s.now, Purge(Scanned(s.kv, down, s.now, s.actors[a].task, n), s.actors[a].Lease(), ok),
                    s.actors - {a})
  {
    var scan := ScanIsProtocolRun(c, s, down, a, n);
    var s1 := Run(c, s, scan);
    RunCons(c, s1, GiveUp(a, ok), []);
    RunConcat(c, s, scan, [GiveUp(a, ok)] + []);
    steps := scan + ([GiveUp(a, ok)] + []);
    assert s1.actors - {a} == s.actors - {a};
  }

  /** Claiming one task and taking a slot for it. */
  lemma SpawnIsProtocolRun(c: Config, s: State, down: set<Request>, task: string, n: nat, a: nat)
    returns (steps: seq<Step>)
    requires 1 <= n <= c.Slots() && (forall b :: b in s.actors ==> b < a) && CanTake(s.kv, down, LeaseKey(task))
    requires FreeSlot(AfterCreate(s.kv, down, s.now, LeaseKey(task), task), down, 0, n).Some?
    ensures Valid(c, s, steps)
    ensures var claimed := AfterCreate(s.kv, down, s.now, LeaseKey(task), task); var s1 := Run(c, s, steps);
            && s1.kv == Scanned(claimed, down, s.now, task, n) && s1.now == s.now
            && SpawnedAs(s, s1, [Spawned(task, FreeSlot(claimed, down, 0, n).value)], a)
  {
    var claim := Claim(a, 0, task, n, Done);
    var s1 := Apply(c, s, claim);
    var take := TakeIsProtocolRun(c, s1, down, a, n);
    RunCons(c, s, claim, take);
    steps := [claim] + take;
  }

  /** Claiming one task, finding no slot and giving the claim back. */
  lemma RejectIsProtocolRun(c: Config, s: State, down: set<Request>, task: string, n: nat, a: nat, ok: bool)
    returns (steps: seq<Step>)
    requires 1 <= n <= c.Slots() && a !in s.actors && CanTake(s.kv, down, LeaseKey(task))
    requires FreeSlot(AfterCreate(s.kv, down, s.now, LeaseKey(task), task), down, 0, n).None?
    ensures Valid(c, s, steps)
    ensures var claimed := AfterCreate(s.kv, down, s.now, LeaseKey(task), task);
            Run(c, s, steps) == s.(kv := Purge(Scanned(claimed, down, s.now, task, n), LeaseKey(task), ok))
  {
    var claim := Claim(a, 0, task, n, Done);
    var s1 := Apply(c, s, claim);
    var rest := GiveUpIsProtocolRun(c, s1, down, a, n, ok);
    RunCons(c, s, claim, rest);
    steps := [claim] + rest;
    assert s1.actors - {a} == s.actors;
  }

  /** A claim that fails, as far as the caller can tell. */
  lemma MissIsProtocolRun(c: Config, s: State, down: set<Request>, task: string, a: nat) returns (steps: seq<Step>)
    requires a !in s.actors && !CanTake(s.kv, down, LeaseKey(task))
    ensures Valid(c, s, steps)
    ensures Run(c, s, steps) == s.(kv := AfterCreate(s.kv, down, s.now, LeaseKey(task), task))
  {
    var claim := Claim(a, 0, task, 1, ReplyOf(s.kv, down, LeaseKey(task)));
    RunCons(c, s, claim, []);
    steps := [claim] + [];
  }

  /** A whole poll round, with any failing requests, is a run of the protocol that adds exactly the
      spawned tasks as live runs in their slots. */
  lemma {:induction false} PollIsProtocolRun(c: Config, s: State, down: set<Request>, pending: seq<string>,
                                             admit: nat -> bool, slots: nat, i: nat, a: nat)
    returns (steps: seq<Step>)
    requires AtLeastOne(slots) <= c.Slots() && (forall b :: b in s.actors ==> b < a)
    ensures Valid(c, s, steps)
    ensures var r := Poll(s.kv, down, s.now, pending, admit, slots, i); var s1 := Run(c, s, steps);
            s1.kv == r.1 && s1.now == s.now && SpawnedAs(s, s1, r.0, a)
    decreases |pending|
  {
    if pending == [] || !admit(i) {
      steps := [];
    } else if pending[0] == "" {
      steps := PollIsProtocolRun(c, s, down, pending[1..], admit, slots, i + 1, a);
    } else if !CanTake(s.kv, down, LeaseKey(pending[0])) {
      var miss := MissIsProtocolRun(c, s, down, pending[0], a);
      var s1 := Run(c, s, miss);
      var rest := PollIsProtocolRun(c, s1, down, pending[1..], admit, slots, i + 1, a);
      RunConcat(c, s, miss, rest);
      steps := miss + rest;
    } else {
      steps := PollTakes(c, s, down, pending, admit, slots, i, a);
    }
  }

  lemma {:induction false} PollTakes(c: Config, s: State, down: set<Request>, pending: seq<string>,
                                     admit: nat -> bool, slots: nat, i: nat, a: nat)
    returns (steps: seq<Step>)
    requires AtLeastOne(slots) <= c.Slots() && (forall b :: b in s.actors ==> b < a)
    requires pending != [] && admit(i) && pending[0] != "" && CanTake(s.kv, down, LeaseKey(pending[0]))
    ensures Valid(c, s, steps)
    ensures var r := Poll(s.kv, down, s.now, pending, admit, slots, i); var s1 := Run(c, s, steps);
            s1.kv == r.1 && s1.now == s.now && SpawnedAs(s, s1, r.0, a)
    decreases |pending|, 0
  {
    var task, n := pending[0], AtLeastOne(slots);
    match FreeSlot(AfterCreate(s.kv, down, s.now, LeaseKey(task), task), down, 0, n) {
      case None =>
        steps := RejectIsProtocolRun(c, s, down, task, n, a, PurgeOf(LeaseKey(task)) !in down);
      case Some(slot) =>
        var spawn := SpawnIsProtocolRun(c, s, down, task, n, a);
        var s1 := Run(c, s, spawn);
        var rest := PollIsProtocolRun(c, s1, down, pending[1..], admit, slots, i + 1, a + 1);
        RunConcat(c, s, spawn, rest);
        steps := spawn + rest;
        var later := Poll(s1.kv, down, s1.now, pending[1..], admit, slots, i + 1);
        PollSpawns(s.kv, down, s.now, pending, admit, slots, i, slot, later);
        SpawnedCons(s, s1, Run(c, s, steps), Spawned(task, slot), later.0, a);
    }
  }

  lemma PollSpawns(kv: Bucket, down: set<Request>, clock: nat, pending: seq<string>, admit: nat -> bool, slots: nat,
                   i: nat, slot: nat, rest: (seq<Spawned>, Bucket))
    requires pending != [] && admit(i) && pending[0] != "" && CanTake(kv, down, LeaseKey(pending[0]))
    requires var claimed := AfterCreate(kv, down, clock, LeaseKey(pending[0]), pending[0]);
             && FreeSlot(claimed, down, 0, AtLeastOne(slots)) == Some(slot)
             && rest == Poll(Scanned(claimed, down, clock, pending[0], AtLeastOne(slots)), down, clock, pending[1..],
                             admit, slots, i + 1)
    ensures Poll(kv, down, clock, pending, admit, slots, i) == ([Spawned(pending[0], slot)] + rest.0, rest.1)
  {
  }

  lemma SpawnedCons(s: State, s2: State, s3: State, first: Spawned, rest: seq<Spawned>, a: nat)
    requires SpawnedAs(s, s2, [first], a) && SpawnedAs(s2, s3, rest, a + 1)
    ensures SpawnedAs(s, s3, [first] + rest, a)
  {
    forall b | a <= b < a + 1 + |rest|
      ensures s3.LiveAt(b) && s3.actors[b].task == ([first] + rest)[b - a].task &&
              s3.actors[b].stage.slot == ([first] + rest)[b - a].slot
    {
      if b == a { assert s2.LiveAt(a) && s3.actors[a] == s2.actors[a]; } else { assert s3.LiveAt(b); }
    }
  }

  lemma SpawnCount(s: State, s1: State, spawned: seq<Spawned>, a: nat)
    requires SpawnedAs(s, s1, spawned, a) && (forall b :: b in s.actors ==> b < a)
    ensures |s1.LiveRuns()| == |s.LiveRuns()| + |spawned|
  {
    LiveAfterSpawn(s, s1, spawned, a, Interval(a, |spawned|));
  }

  lemma LiveAfterSpawn(s: State, s1: State, spawned: seq<Spawned>, a: nat, more: set<nat>)
    requires SpawnedAs(s, s1, spawned, a) && (forall b :: b in s.actors ==> b < a)
    requires forall b :: b in more <==> a <= b < a + |spawned|
    ensures s1.LiveRuns() == s.LiveRuns() + more && s.LiveRuns() !! more
  {
  }

  lemma SpawnedApart(s: State, s1: State, spawned: seq<Spawned>, a: nat)
    requires SpawnedAs(s, s1, spawned, a) && (forall b :: b in s.actors ==> b < a) && NoSharing(s1)
    ensures forall i, j :: 0 <= i < j < |spawned| ==>
              spawned[i].slot != spawned[j].slot && LeaseKey(spawned[i].task) != LeaseKey(spawned[j].task)
    ensures forall b, j :: s.LiveAt(b) && 0 <= j < |spawned| ==>
              s.actors[b].stage.slot != spawned[j].slot && s.actors[b].Lease() != LeaseKey(spawned[j].task)
  {
    forall i, j | 0 <= i < j < |spawned|
      ensures spawned[i].slot != spawned[j].slot && LeaseKey(spawned[i].task) != LeaseKey(spawned[j].task)
    {
      assert s1.LiveAt(a + i) && s1.LiveAt(a + j);
    }
    forall b, j | s.LiveAt(b) && 0 <= j < |spawned|
      ensures s.actors[b].stage.slot != spawned[j].slot && s.actors[b].Lease() != LeaseKey(spawned[j].task)
    {
      assert s1.LiveAt(b) && s1.LiveAt(a + j) && b != a + j;
    }
  }

  /** So a round never spawns two tasks in one slot, never takes a slot or task a live run holds, and the
      live runs it leaves fit the configured cap. */
  lemma PollRespectsCap(c: Config, s: State, down: set<Request>, pending: seq<string>, admit: nat -> bool, slots: nat,
                        a: nat)
    requires c.RenewsInTime() && Inv(c, s) && AtLeastOne(slots) <= c.Slots() && (forall b :: b in s.actors ==> b < a)
    ensures var spawned := Poll(s.kv, down, s.now, pending, admit, slots, 0).0;
            && |s.LiveRuns()| + |spawned| <= c.Slots()
            && (forall i, j :: 0 <= i < j < |spawned| ==>
                  spawned[i].slot != spawned[j].slot && LeaseKey(spawned[i].task) != LeaseKey(spawned[j].task))
            && (forall b, j :: s.LiveAt(b) && 0 <= j < |spawned| ==>
                  s.actors[b].stage.slot != spawned[j].slot && s.actors[b].Lease() != LeaseKey(spawned[j].task))
  {
    var spawned := Poll(s.kv, down, s.now, pending, admit, slots, 0).0;
    var steps := PollIsProtocolRun(c, s, down, pending, admit, slots, 0, a);
    var s1 := Run(c, s, steps);
    RunKeeps(c, s, steps);
    InvIsSafe(c, s1);
    SpawnCount(s, s1, spawned, a);
    SpawnedApart(s, s1, spawned, a);
  }

  predicate NamedBy(spawned: seq<Spawned>, key: string)
  {
    exists j :: 0 <= j < |spawned| && (key == LeaseKey(spawned[j].task) || key == SlotKey(spawned[j].slot))
  }

  lemma NamedByCons(first: Spawned, rest: seq<Spawned>, key: string)
    ensures NamedBy([first] + rest, key) <==>
              key == LeaseKey(first.task) || key == SlotKey(first.slot) || NamedBy(rest, key)
  {
    var all := [first] + rest;
    assert all[0] == first;
    if j :| 0 <= j < |rest| && (key == LeaseKey(rest[j].task) || key == SlotKey(rest[j].slot)) {
      assert all[j + 1] == rest[j];
    }
  }

  /** A key is left alone, or is a spawned task's or slot's, or comes from a failed request: an unacknowledged create,
      or a purge that did not give a claim back. */
  ghost predicate Accounted(kv: Bucket, down: set<Request>, r: (seq<Spawned>, Bucket), key: string)
  {
    && (key in kv ==> key in r.1 && r.1[key] == kv[key] && !NamedBy(r.0, key))
    && (NamedBy(r.0, key) ==> key in r.1)
    && (key in r.1 && key !in kv && !NamedBy(r.0, key) ==> AckOf(key) in down || PurgeOf(key) in down)
  }

  /** The same for creates of slot keys alone, apart from the slot that is taken. */
  lemma {:induction false} SlotsAccounted(kv: Bucket, down: set<Request>, clock: nat, run: string, n: nat, key: string)
    requires forall i: nat :: i < n ==> !CanTake(kv, down, SlotKey(i))
    ensures var kv' := SlotsCreated(kv, down, clock, run, n);
            (key in kv ==> key in kv' && kv'[key] == kv[key]) && (key in kv' && key !in kv ==> AckOf(key) in down)
    decreases n
  {
    if n > 0 {
      SlotsAccounted(kv, down, clock, run, n - 1, key);
      SlotsCreatedAt(kv, down, clock, run, n - 1, n - 1);
    }
  }

  /** A round accounts for every key of the bucket it leaves, whatever requests fail. */
  lemma {:induction false} PollTouchesOnlySpawned(kv: Bucket, down: set<Request>, clock: nat, pending: seq<string>,
                                                  admit: nat -> bool, slots: nat, i: nat, key: string)
    ensures Accounted(kv, down, Poll(kv, down, clock, pending, admit, slots, i), key)
    decreases |pending|
  {
    if pending != [] && admit(i) {
      var task, n := pending[0], AtLeastOne(slots);
      var claimed := AfterCreate(kv, down, clock, LeaseKey(task), task);
      if task == "" {
        PollTouchesOnlySpawned(kv, down, clock, pending[1..], admit, slots, i + 1, key);
      } else if !CanTake(kv, down, LeaseKey(task)) {
        PollTouchesOnlySpawned(claimed, down, clock, pending[1..], admit, slots, i + 1, key);
      } else {
        match FreeSlot(claimed, down, 0, n) {
          case None => SlotsAccounted(claimed, down, clock, task, n, key);
          case Some(slot) =>
            SlotsAccounted(claimed, down, clock, task, slot, key);
            SlotsCreatedAt(claimed, down, clock, task, slot, slot);
            var held := Scanned(claimed, down, clock, task, n);
            PollTouchesOnlySpawned(held, down, clock, pending[1..], admit, slots, i + 1, key);
            NamedByCons(Spawned(task, slot), Poll(held, down, clock, pending[1..], admit, slots, i + 1).0, key);
        }
      }
    }
  }

  // ------------------------------------------------------------------ heartbeat, completion, boot

  /** The loop body of the heartbeat: both keys, whatever became of the first. */
  method Heartbeat(sched: NatsScheduler, run: string, slot: nat)
    modifies sched`leases
    ensures sched.leases == Beaten(old(sched.leases), sched.down, sched.clock, run, slot)
  {
    var _ := sched.RenewLease(run);
    var _ := sched.RenewExecutionSlot(slot, run);
  }

  function PutIf(kv: Bucket, key: string, run: string, clock: nat, ok: bool): Bucket
  {
    if ok then kv[key := Entry(run, clock)] else kv
  }

  function Beaten(kv: Bucket, down: set<Request>, clock: nat, run: string, slot: nat): Bucket
  {
    var first := PutIf(kv, LeaseKey(run), run, clock, PutOf(LeaseKey(run)) !in down);
    PutIf(first, SlotKey(slot), run, clock, PutOf(SlotKey(slot)) !in down)
  }

  /** The end of a run: slot first, then the lease. */
  method Complete(sched: NatsScheduler, run: string, slot: nat)
    modifies sched`leases
    ensures sched.leases == Completed(old(sched.leases), sched.down, run, slot)
  {
    sched.ReleaseExecutionSlot(slot);
    var _ := sched.ReleaseLease(run);
  }

  function Completed(kv: Bucket, down: set<Request>, run: string, slot: nat): Bucket
  {
    Purge(Purge(kv, SlotKey(slot), PurgeOf(SlotKey(slot)) !in down), LeaseKey(run), PurgeOf(LeaseKey(run)) !in down)
  }

  /** The two steps of actor `a`'s heartbeat. */
  function BeatSteps(s: State, down: set<Request>, a: nat): seq<Step>
    requires a in s.actors && !s.actors[a].stage.Claimed?
  {
    [BeatLease(a, PutOf(s.actors[a].Lease()) !in down)] + ([BeatSlot(a, PutOf(s.actors[a].Slot()) !in down)] + [])
  }

  /** A heartbeat of any actor that still has one is two steps of the protocol exactly when an owner loses no renewal
      beyond what is tolerated; for a large enough tolerance it always is. */
  lemma HeartbeatIsProtocolRun(c: Config, s: State, down: set<Request>, a: nat)
    requires a in s.actors && !s.actors[a].stage.Claimed? && !s.actors[a].midBeat
    ensures var x := s.actors[a];
            Valid(c, s, BeatSteps(s, down, a))
            <==> && (PutOf(x.Lease()) in down && x.OwnsLease() ==> x.leaseFails < c.tolerated)
                 && (PutOf(x.Slot()) in down && x.OwnsSlot() ==> x.slotFails < c.tolerated)
    ensures Valid(c, s, BeatSteps(s, down, a)) ==>
              var x, s1 := s.actors[a], Run(c, s, BeatSteps(s, down, a));
              && s1.kv == Beaten(s.kv, down, s.now, x.task, x.stage.slot) && s1.now == s.now
              && s1.actors.Keys == s.actors.Keys && s1.actors[a].stage == x.stage && !s1.actors[a].midBeat
              && s1.actors[a].leaseBeat == s1.actors[a].slotBeat == s.now
  {
    var x := s.actors[a];
    var lease, beat := BeatLease(a, PutOf(x.Lease()) !in down), BeatSlot(a, PutOf(x.Slot()) !in down);
    var steps := BeatSteps(s, down, a);
    assert steps[0] == lease && steps[1..] == [beat] && [beat][1..] == [];
    if Enabled(c, s, lease) {
      var s1 := Apply(c, s, lease);
      assert Valid(c, s1, [beat]) <==> Enabled(c, s1, beat);
      if Enabled(c, s1, beat) {
        RunCons(c, s1, beat, []);
        RunCons(c, s, lease, [beat] + []);
      }
    }
  }

  /** The end of a live run is three steps of the protocol, the last of which ends its heartbeat. */
  lemma CompletionIsProtocolRun(c: Config, s: State, down: set<Request>, a: nat) returns (steps: seq<Step>)
    requires s.LiveAt(a)
    ensures Valid(c, s, steps)
    ensures var x := s.actors[a];
            Run(c, s, steps) == State(s.now, Completed(s.kv, down, x.task, x.stage.slot), s.actors - {a})
  {
    var x := s.actors[a];
    var slot, lease := ReleaseSlot(a, PurgeOf(x.Slot()) !in down), ReleaseLease(a, PurgeOf(x.Lease()) !in down);
    var s1 := Apply(c, s, slot);
    var s2 := Apply(c, s1, lease);
    RunCons(c, s2, Abort(a), []);
    RunCons(c, s1, lease, [Abort(a)] + []);
    RunCons(c, s, slot, [lease] + ([Abort(a)] + []));
    steps := [slot] + ([lease] + ([Abort(a)] + []));
    assert s2.actors - {a} == s.actors - {a};
  }

  /** When nobody holds anything, what `ReleaseAllLeases` does is the boot step of the protocol. */
  lemma BootIsProtocolRun(c: Config, s: State, down: set<Request>)
    requires s.NobodyOwns()
    ensures Valid(c, s, [Boot(Survivors(s.kv, down))])
    ensures Run(c, s, [Boot(Survivors(s.kv, down))]) == s.(kv := Only(s.kv, Survivors(s.kv, down)))
  {
    RunCons(c, s, Boot(Survivors(s.kv, down)), []);
    assert [Boot(Survivors(s.kv, down))] + [] == [Boot(Survivors(s.kv, down))];
  }

  function Interval(a: nat, n: nat): (r: set<nat>)
    ensures |r| == n && forall b :: b in r <==> a <= b < a + n
  {
    if n == 0 then {} else Interval(a, n - 1) + {a + n - 1}
  }
}
