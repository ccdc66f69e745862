/** The lease and execution-slot protocol of the daemons, as interleaved atomic steps over one KV bucket.

    An actor is one claimed task: first a poller looking for a slot, then a run with its own heartbeat,
    then a finished run whose heartbeat has not been aborted yet. Every KV request is a step of its own,
    so any interleaving of pollers, heartbeats, completions, crashes and the clock is a run of this system.
    Requests may fail. The heartbeat of a run is timely (`period`) and loses at most `tolerated`
    consecutive renewals of one key; those two numbers are parameters. */
module LeaseProtocol {
  import Decimal

  const LEASE_TTL: nat := 600
  const LEASE_RENEWAL_INTERVAL: nat := 120

  datatype Entry = Entry(run: string, at: nat)
  type Bucket = map<string, Entry>

  predicate KeepsChar(c: char)
  {
    'a' <= c <= 'z' || 'A' <= c <= 'Z' || '0' <= c <= '9' || c == '.' || c == '_' || c == '-'
  }

  function SanitizeKey(s: string): string
  {
    seq(|s|, i requires 0 <= i < |s| => if s[i] == ':' then '.' else if KeepsChar(s[i]) then s[i] else '_')
  }

  function LeaseKey(task: string): string { "lease." + SanitizeKey(task) }

  function SlotKey(slot: nat): string { "goal-execution-lock.slot-" + Decimal.Print(slot) }

  lemma SlotKeysDiffer(i: nat, j: nat)
    requires SlotKey(i) == SlotKey(j)
    ensures i == j
  {
    var prefix := "goal-execution-lock.slot-";
    assert SlotKey(i)[|prefix|..] == Decimal.Print(i) && SlotKey(j)[|prefix|..] == Decimal.Print(j);
    Decimal.PrintIsInjective(i, j);
  }

  lemma LeaseKeysAreNoSlotKeys(task: string, slot: nat)
    ensures LeaseKey(task) != SlotKey(slot)
  {
    assert LeaseKey(task)[0] == 'l' && SlotKey(slot)[0] == 'g';
  }

  /** What the bucket's `max_age` leaves at time `now`. */
  function Expire(kv: Bucket, now: nat): Bucket
  {
    map k | k in kv && now < kv[k].at + LEASE_TTL :: kv[k]
  }

  // ------------------------------------------------------------------ state

  datatype Stage =
    | Claimed(next: nat, cap: nat)   // lease created, scanning slots from `next` below `cap`
    | Live(slot: nat)                // executing
    | SlotReleased(slot: nat)        // finished: slot purge issued, lease purge not yet
    | Released(slot: nat, since: nat) // both purges issued, heartbeat not aborted yet
    | Panicked(slot: nat)            // the run died by a panic: nothing is released, nothing is aborted

  datatype Actor = Actor(daemon: nat, task: string, stage: Stage, midBeat: bool,
                         leaseBeat: nat, leaseFails: nat, slotBeat: nat, slotFails: nat)
  {
    predicate OwnsLease() { stage.Claimed? || stage.Live? || stage.SlotReleased? }
    predicate OwnsSlot() { stage.Live? }
    function Lease(): string { LeaseKey(task) }
    function Slot(): string requires !stage.Claimed? { SlotKey(stage.slot) }
    /** Keys a heartbeat or a purge of this actor can name. */
    function Keys(): set<string> { if stage.Claimed? then {Lease()} else {Lease(), Slot()} }
  }

  datatype State = State(now: nat, kv: Bucket, actors: map<nat, Actor>)
  {
    predicate LiveAt(a: nat) { a in actors && actors[a].stage.Live? }
    function LiveRuns(): set<nat> { set a | a in actors && actors[a].stage.Live? }
    predicate NobodyOwns() { forall a :: a in actors ==> !actors[a].OwnsLease() }
  }

  datatype Config = Config(maxRuns: nat, period: nat, tolerated: nat)
  {
    function Slots(): nat { if maxRuns == 0 then 1 else maxRuns }
    /** The last tolerated renewal still lands before the TTL. */
    predicate RenewsInTime() { period * (tolerated + 1) < LEASE_TTL }
  }

  const Initial := State(0, map[], map[])

  // ------------------------------------------------------------------ steps

  /** Reply to an atomic create: created and acknowledged, created but the reply was lost, or no effect. */
  datatype Reply = Done | Lost | Refused

  datatype Step =
    | Claim(a: nat, daemon: nat, task: string, cap: nat, reply: Reply)
    | TrySlot(a: nat, reply: Reply)
    | GiveUp(a: nat, ok: bool)
    | BeatLease(a: nat, ok: bool)
    | BeatSlot(a: nat, ok: bool)
    | ReleaseSlot(a: nat, ok: bool)
    | ReleaseLease(a: nat, ok: bool)
    | Abort(a: nat)
    | Panic(a: nat)
    | Crash(daemon: nat)
    | Tick(dt: nat)
    | Boot(kept: set<string>)

  predicate CanCreate(kv: Bucket, key: string, reply: Reply) { reply.Refused? || key !in kv }

  /** Time may not pass the point where a running heartbeat or a poller still owes its next request, nor may an
      abort come later than one period after the release it follows. */
  predicate Timely(c: Config, s: State, now: nat)
  {
    forall a :: a in s.actors ==>
      && (s.actors[a].OwnsLease() ==> now <= s.actors[a].leaseBeat + c.period)
      && (s.actors[a].OwnsSlot() ==> now <= s.actors[a].slotBeat + c.period)
      && (s.actors[a].stage.Released? ==> now <= s.actors[a].stage.since + c.period)
  }

  predicate Enabled(c: Config, s: State, step: Step)
  {
    match step
    case Claim(a, _, task, cap, reply) =>
      a !in s.actors && 1 <= cap <= c.Slots() && CanCreate(s.kv, LeaseKey(task), reply)
    case TrySlot(a, reply) =>
      a in s.actors && s.actors[a].stage.Claimed? &&
      var st := s.actors[a].stage; st.next < st.cap && CanCreate(s.kv, SlotKey(st.next), reply)
    case GiveUp(a, _) =>
      a in s.actors && s.actors[a].stage.Claimed? && s.actors[a].stage.next >= s.actors[a].stage.cap
    case BeatLease(a, ok) =>
      a in s.actors && !s.actors[a].stage.Claimed? && !s.actors[a].midBeat &&
      (!ok && s.actors[a].OwnsLease() ==> s.actors[a].leaseFails < c.tolerated)
    case BeatSlot(a, ok) =>
      a in s.actors && !s.actors[a].stage.Claimed? && s.actors[a].midBeat &&
      (!ok && s.actors[a].OwnsSlot() ==> s.actors[a].slotFails < c.tolerated)
    case ReleaseSlot(a, _) => a in s.actors && s.actors[a].stage.Live?
    case ReleaseLease(a, _) => a in s.actors && s.actors[a].stage.SlotReleased?
    case Abort(a) => a in s.actors && s.actors[a].stage.Released?
    case Panic(a) => a in s.actors && s.actors[a].stage.Live?
    case Crash(_) => true
    case Tick(dt) => Timely(c, s, s.now + dt)
    case Boot(_) => s.NobodyOwns()
  }

  function Put(s: State, key: string, run: string, ok: bool): Bucket
  {
    if ok then s.kv[key := Entry(run, s.now)] else s.kv
  }

  function Purge(kv: Bucket, key: string, ok: bool): Bucket { if ok then kv - {key} else kv }

  /** `release_all_leases`: everybody's keys go, except those whose purge failed. */
  function BootPurge(s: State, kept: set<string>): State
  {
    s.(kv := map k | k in s.kv && k in kept :: s.kv[k])
  }

  function Apply(c: Config, s: State, step: Step): State
    requires Enabled(c, s, step)
  {
    match step
    case Claim(a, daemon, task, cap, reply) =>
      var s1 := s.(kv := Put(s, LeaseKey(task), task, !reply.Refused?));
      if reply.Done? then
        s1.(actors := s.actors[a := Actor(daemon, task, Claimed(0, cap), false, s.now, 0, s.now, 0)])
      else s1
    case TrySlot(a, reply) =>
      var x := s.actors[a];
      State(s.now, Put(s, SlotKey(x.stage.next), x.task, !reply.Refused?),
            s.actors[a := if reply.Done?
                          then x.(stage := Live(x.stage.next), slotBeat := s.now, slotFails := 0)
                          else x.(stage := Claimed(x.stage.next + 1, x.stage.cap))])
    case GiveUp(a, ok) =>
      State(s.now, Purge(s.kv, s.actors[a].Lease(), ok), s.actors - {a})
    case BeatLease(a, ok) =>
      var x := s.actors[a];
      State(s.now, Put(s, x.Lease(), x.task, ok),
            s.actors[a := x.(midBeat := true, leaseBeat := s.now, leaseFails := if ok then 0 else x.leaseFails + 1)])
    case BeatSlot(a, ok) =>
      var x := s.actors[a];
      State(s.now, Put(s, x.Slot(), x.task, ok),
            s.actors[a := x.(midBeat := false, slotBeat := s.now, slotFails := if ok then 0 else x.slotFails + 1)])
    case ReleaseSlot(a, ok) =>
      var x := s.actors[a];
      State(s.now, Purge(s.kv, x.Slot(), ok), s.actors[a := x.(stage := SlotReleased(x.stage.slot))])
    case ReleaseLease(a, ok) =>
      var x := s.actors[a];
      State(s.now, Purge(s.kv, x.Lease(), ok), s.actors[a := x.(stage := Released(x.stage.slot, s.now))])
    case Abort(a) => s.(actors := s.actors - {a})
    case Panic(a) =>
      var x := s.actors[a];
      s.(actors := s.actors[a := x.(stage := Panicked(x.stage.slot))])
    case Crash(daemon) =>
      s.(actors := map a | a in s.actors && s.actors[a].daemon != daemon :: s.actors[a])
    case Tick(dt) => State(s.now + dt, Expire(s.kv, s.now + dt), s.actors)
    case Boot(kept) => BootPurge(s, kept)
  }

  predicate Valid(c: Config, s: State, steps: seq<Step>)
    decreases |steps|
  {
    steps == [] || (Enabled(c, s, steps[0]) && Valid(c, Apply(c, s, steps[0]), steps[1..]))
  }

  function Run(c: Config, s: State, steps: seq<Step>): State
    requires Valid(c, s, steps)
    decreases |steps|
  {
    if steps == [] then s else Run(c, Apply(c, s, steps[0]), steps[1..])
  }

  lemma {:induction false} RunConcat(c: Config, s: State, xs: seq<Step>, ys: seq<Step>)
    requires Valid(c, s, xs) && Valid(c, Run(c, s, xs), ys)
    ensures Valid(c, s, xs + ys) && Run(c, s, xs + ys) == Run(c, Run(c, s, xs), ys)
    decreases |xs|
  {
    if xs == [] {
      assert xs + ys == ys;
    } else {
      RunConcat(c, Apply(c, s, xs[0]), xs[1..], ys);
      assert (xs + ys)[1..] == xs[1..] + ys;
    }
  }

  lemma RunCons(c: Config, s: State, step: Step, rest: seq<Step>)
    requires Enabled(c, s, step) && Valid(c, Apply(c, s, step), rest)
    ensures Valid(c, s, [step] + rest)
    ensures Run(c, s, [step] + rest) == Run(c, Apply(c, s, step), rest)
  {
    assert ([step] + rest)[1..] == rest;
  }

  lemma FreshId(actors: map<nat, Actor>) returns (b: nat)
    ensures b !in actors
  {
    b := 0;
    var seen: set<nat> := {};
    while b in actors
      invariant seen <= actors.Keys && forall x :: x in seen <==> 0 <= x < b
      invariant b == |seen|
      decreases |actors.Keys| - |seen|
    {
      var more := seen + {b};
      SubsetSize(more, actors.Keys);
      seen, b := more, b + 1;
    }
  }

  lemma SubsetSize(a: set<nat>, b: set<nat>)
    requires a <= b
    ensures |a| <= |b|
  {
    assert b == a + (b - a);
  }

  // ------------------------------------------------------------------ safety

  /** No two live runs share a slot or a lease key, live runs hold both their keys, and they fit the cap. */
  ghost predicate Safe(c: Config, s: State)
  {
    && (forall a :: s.LiveAt(a) ==> s.actors[a].Lease() in s.kv && s.actors[a].Slot() in s.kv)
    && (forall a, b :: s.LiveAt(a) && s.LiveAt(b) && a != b ==>
          s.actors[a].Lease() != s.actors[b].Lease() && s.actors[a].Slot() != s.actors[b].Slot())
    && |s.LiveRuns()| <= c.Slots()
  }

  ghost predicate KeyHeld(c: Config, s: State, key: string, beat: nat, fails: nat)
  {
    && key in s.kv
    && beat <= s.now <= beat + c.period
    && fails <= c.tolerated
    && beat <= s.kv[key].at + c.period * fails
  }

  ghost predicate ActorInv(c: Config, s: State, x: Actor)
  {
    && (x.OwnsLease() ==> KeyHeld(c, s, x.Lease(), x.leaseBeat, x.leaseFails))
    && (x.OwnsSlot() ==> KeyHeld(c, s, x.Slot(), x.slotBeat, x.slotFails) && x.stage.slot < c.Slots())
    && (x.stage.Claimed? ==> x.stage.cap <= c.Slots())
  }

  ghost predicate Apart(x: Actor, y: Actor)
  {
    && (x.OwnsLease() && y.OwnsLease() ==> x.Lease() != y.Lease())
    && (x.OwnsSlot() && y.OwnsSlot() ==> x.Slot() != y.Slot())
  }

  ghost predicate Exclusive(s: State)
  {
    forall a, b :: a in s.actors && b in s.actors && a != b ==> Apart(s.actors[a], s.actors[b])
  }

  ghost predicate Unexpired(s: State)
  {
    forall k :: k in s.kv ==> s.kv[k].at <= s.now < s.kv[k].at + LEASE_TTL
  }

  ghost predicate Inv(c: Config, s: State)
  {
    && Unexpired(s)
    && (forall a :: a in s.actors ==> ActorInv(c, s, s.actors[a]))
    && Exclusive(s)
  }

  /** What two actors own are different keys. */
  lemma KeysSeparate(s: State, a: nat, b: nat)
    requires Exclusive(s) && a in s.actors && b in s.actors && a != b
    ensures s.actors[a].OwnsLease() && s.actors[b].OwnsLease() ==> s.actors[a].Lease() != s.actors[b].Lease()
    ensures s.actors[a].OwnsSlot() && s.actors[b].OwnsLease() ==> s.actors[a].Slot() != s.actors[b].Lease()
    ensures s.actors[a].OwnsLease() && s.actors[b].OwnsSlot() ==> s.actors[a].Lease() != s.actors[b].Slot()
  {
    if s.actors[a].OwnsSlot() { LeaseKeysAreNoSlotKeys(s.actors[b].task, s.actors[a].stage.slot); }
    if s.actors[b].OwnsSlot() { LeaseKeysAreNoSlotKeys(s.actors[a].task, s.actors[b].stage.slot); }
  }

  /** An actor that keeps or gives up its keys stays apart from the others. */
  lemma StaysApart(s: State, a: nat, y: Actor)
    requires Exclusive(s) && a in s.actors
    requires y.OwnsLease() ==> s.actors[a].OwnsLease() && y.Lease() == s.actors[a].Lease()
    requires y.OwnsSlot() ==> s.actors[a].OwnsSlot() && y.Slot() == s.actors[a].Slot()
    ensures forall b :: b in s.actors && b != a ==> Apart(y, s.actors[b])
  {
    forall b | b in s.actors && b != a ensures Apart(y, s.actors[b]) {
      assert Apart(s.actors[a], s.actors[b]);
    }
  }

  /** One actor more, or one changed. */
  lemma ActorChanges(c: Config, s: State, s1: State, a: nat, y: Actor)
    requires Inv(c, s) && s1.actors == s.actors[a := y] && Unexpired(s1) && ActorInv(c, s1, y)
    requires forall b :: b in s.actors && b != a ==> ActorInv(c, s1, s.actors[b])
    requires forall b :: b in s.actors && b != a ==> Apart(y, s.actors[b])
    ensures Inv(c, s1)
  {
  }

  /** A blind put, late or not, only makes a held key younger. */
  lemma PutYounger(c: Config, s: State, s1: State, key: string, run: string, ok: bool, x: Actor)
    requires ActorInv(c, s, x) && Unexpired(s) && s1.now == s.now && s1.kv == Put(s, key, run, ok)
    ensures ActorInv(c, s1, x)
  {
  }

  lemma PutKeeps(c: Config, s: State, s1: State, key: string, run: string, ok: bool)
    requires Inv(c, s) && s1.now == s.now && s1.kv == Put(s, key, run, ok)
    ensures Unexpired(s1) && forall b :: b in s.actors ==> ActorInv(c, s1, s.actors[b])
  {
    forall b | b in s.actors ensures ActorInv(c, s1, s.actors[b]) {
      PutYounger(c, s, s1, key, run, ok, s.actors[b]);
    }
  }

  /** Nobody owns a key that is not in the bucket. */
  lemma AbsentIsNobodys(c: Config, s: State, key: string)
    requires Inv(c, s) && key !in s.kv
    ensures forall b :: b in s.actors && s.actors[b].OwnsLease() ==> s.actors[b].Lease() != key
    ensures forall b :: b in s.actors && s.actors[b].OwnsSlot() ==> s.actors[b].Slot() != key
  {
    forall b | b in s.actors ensures ActorInv(c, s, s.actors[b]) {}
  }

  lemma ClaimKeeps(c: Config, s: State, step: Step)
    requires Inv(c, s) && Enabled(c, s, step) && step.Claim?
    ensures Inv(c, Apply(c, s, step))
  {
    var key, s1 := LeaseKey(step.task), Apply(c, s, step);
    PutKeeps(c, s, s1, key, step.task, !step.reply.Refused?);
    if step.reply.Done? {
      AbsentIsNobodys(c, s, key);
      ActorChanges(c, s, s1, step.a, s1.actors[step.a]);
    }
  }

  lemma TrySlotKeeps(c: Config, s: State, step: Step)
    requires Inv(c, s) && Enabled(c, s, step) && step.TrySlot?
    ensures Inv(c, Apply(c, s, step))
  {
    var x, s1 := s.actors[step.a], Apply(c, s, step);
    var key, y := SlotKey(x.stage.next), s1.actors[step.a];
    LeaseKeysAreNoSlotKeys(x.task, x.stage.next);
    PutKeeps(c, s, s1, key, x.task, !step.reply.Refused?);
    assert ActorInv(c, s1, x);
    StaysApart(s, step.a, x);
    if step.reply.Done? { AbsentIsNobodys(c, s, key); }
    ActorChanges(c, s, s1, step.a, y);
  }

  /** A purge of a key an actor does not hold leaves it as it is. */
  lemma PurgeSpares(c: Config, s: State, s1: State, key: string, ok: bool, x: Actor)
    requires ActorInv(c, s, x) && s1.kv == Purge(s.kv, key, ok) && s1.now == s.now
    requires (x.OwnsLease() ==> x.Lease() != key) && (x.OwnsSlot() ==> x.Slot() != key)
    ensures ActorInv(c, s1, x)
  {
  }

  /** A purge issued by the owner of the purged key takes it from nobody else. */
  lemma PurgeKeeps(c: Config, s: State, step: Step)
    requires Inv(c, s) && Enabled(c, s, step) && (step.ReleaseSlot? || step.ReleaseLease?)
    ensures Inv(c, Apply(c, s, step))
  {
    var x, s1 := s.actors[step.a], Apply(c, s, step);
    var key := if step.ReleaseSlot? then x.Slot() else x.Lease();
    LeaseKeysAreNoSlotKeys(x.task, x.stage.slot);
    StaysApart(s, step.a, s1.actors[step.a]);
    forall b | b in s.actors ensures ActorInv(c, s1, s1.actors[b]) {
      if b != step.a { KeysSeparate(s, step.a, b); }
      PurgeSpares(c, s, s1, key, step.ok, s1.actors[b]);
    }
    ActorChanges(c, s, s1, step.a, s1.actors[step.a]);
  }

  lemma GiveUpKeeps(c: Config, s: State, step: Step)
    requires Inv(c, s) && Enabled(c, s, step) && step.GiveUp?
    ensures Inv(c, Apply(c, s, step))
  {
    var x, s1 := s.actors[step.a], Apply(c, s, step);
    forall b | b in s.actors && b != step.a ensures ActorInv(c, s1, s1.actors[b]) {
      KeysSeparate(s, step.a, b);
      PurgeSpares(c, s, s1, x.Lease(), step.ok, s.actors[b]);
    }
  }

  /** One more renewal attempt at the present time, lost or not, leaves the key held. */
  lemma AttemptHolds(c: Config, s: State, s1: State, key: string, beat: nat, fails: nat, run: string, ok: bool)
    requires KeyHeld(c, s, key, beat, fails) && (ok || fails < c.tolerated)
    requires s1.now == s.now && s1.kv == Put(s, key, run, ok)
    ensures KeyHeld(c, s1, key, s.now, if ok then 0 else fails + 1)
  {
    assert c.period * (fails + 1) == c.period * fails + c.period;
  }

  lemma BeatLeaseKeeps(c: Config, s: State, step: Step)
    requires Inv(c, s) && Enabled(c, s, step) && step.BeatLease?
    ensures Inv(c, Apply(c, s, step))
  {
    var x, s1 := s.actors[step.a], Apply(c, s, step);
    if x.OwnsLease() { AttemptHolds(c, s, s1, x.Lease(), x.leaseBeat, x.leaseFails, x.task, step.ok); }
    BeatKeeps(c, s, s1, step.a, s1.actors[step.a], x.Lease(), x.task, step.ok);
  }

  lemma BeatSlotKeeps(c: Config, s: State, step: Step)
    requires Inv(c, s) && Enabled(c, s, step) && step.BeatSlot?
    ensures Inv(c, Apply(c, s, step))
  {
    var x, s1 := s.actors[step.a], Apply(c, s, step);
    if x.OwnsSlot() { AttemptHolds(c, s, s1, x.Slot(), x.slotBeat, x.slotFails, x.task, step.ok); }
    BeatKeeps(c, s, s1, step.a, s1.actors[step.a], x.Slot(), x.task, step.ok);
  }

  /** A heartbeat's put changes nothing but the age of one key and what its actor remembers of it. */
  lemma BeatKeeps(c: Config, s: State, s1: State, a: nat, y: Actor, key: string, run: string, ok: bool)
    requires Inv(c, s) && a in s.actors && s1.now == s.now && s1.kv == Put(s, key, run, ok)
    requires s1.actors == s.actors[a := y] && y.task == s.actors[a].task && y.stage == s.actors[a].stage
    requires y.OwnsLease() ==>
               || KeyHeld(c, s1, y.Lease(), y.leaseBeat, y.leaseFails)
               || (y.leaseBeat == s.actors[a].leaseBeat && y.leaseFails == s.actors[a].leaseFails)
    requires y.OwnsSlot() ==>
               || KeyHeld(c, s1, y.Slot(), y.slotBeat, y.slotFails)
               || (y.slotBeat == s.actors[a].slotBeat && y.slotFails == s.actors[a].slotFails)
    ensures Inv(c, s1)
  {
    PutKeeps(c, s, s1, key, run, ok);
    assert ActorInv(c, s1, s.actors[a]);
    StaysApart(s, a, y);
    ActorChanges(c, s, s1, a, y);
  }

  /** Until the next renewal is due, a held key has not reached its TTL. */
  lemma HeldOutlastsPeriod(c: Config, s: State, key: string, beat: nat, fails: nat, now: nat)
    requires c.RenewsInTime() && KeyHeld(c, s, key, beat, fails) && s.now <= now <= beat + c.period
    ensures now < s.kv[key].at + LEASE_TTL
    ensures KeyHeld(c, State(now, Expire(s.kv, now), s.actors), key, beat, fails)
  {
    assert c.period * (c.tolerated + 1) == c.period * c.tolerated + c.period;
    assert c.period * fails <= c.period * c.tolerated;
  }

  lemma TickKeeps(c: Config, s: State, step: Step)
    requires c.RenewsInTime() && Inv(c, s) && Enabled(c, s, step) && step.Tick?
    ensures Inv(c, Apply(c, s, step))
  {
    var s1 := Apply(c, s, step);
    forall a | a in s.actors ensures ActorInv(c, s1, s.actors[a]) {
      var x := s.actors[a];
      if x.OwnsLease() { HeldOutlastsPeriod(c, s, x.Lease(), x.leaseBeat, x.leaseFails, s1.now); }
      if x.OwnsSlot() { HeldOutlastsPeriod(c, s, x.Slot(), x.slotBeat, x.slotFails, s1.now); }
    }
  }

  lemma FewerActorsKeep(c: Config, s: State, s1: State)
    requires Inv(c, s) && s1.now == s.now && s1.kv == s.kv
    requires forall a :: a in s1.actors ==> a in s.actors && s1.actors[a] == s.actors[a]
    ensures Inv(c, s1)
  {
    forall a | a in s1.actors ensures ActorInv(c, s1, s1.actors[a]) { assert ActorInv(c, s, s.actors[a]); }
  }

  lemma PanicKeeps(c: Config, s: State, step: Step)
    requires Inv(c, s) && Enabled(c, s, step) && step.Panic?
    ensures Inv(c, Apply(c, s, step))
  {
    var s1 := Apply(c, s, step);
    forall b | b in s.actors ensures ActorInv(c, s1, s.actors[b]) { assert ActorInv(c, s, s.actors[b]); }
    StaysApart(s, step.a, s1.actors[step.a]);
    ActorChanges(c, s, s1, step.a, s1.actors[step.a]);
  }

  lemma BootKeeps(c: Config, s: State, step: Step)
    requires Inv(c, s) && Enabled(c, s, step) && step.Boot?
    ensures Inv(c, Apply(c, s, step))
  {
    var s1 := Apply(c, s, step);
    forall b | b in s.actors ensures ActorInv(c, s1, s.actors[b]) { assert ActorInv(c, s, s.actors[b]); }
  }

  lemma StepKeeps(c: Config, s: State, step: Step)
    requires c.RenewsInTime() && Inv(c, s) && Enabled(c, s, step)
    ensures Inv(c, Apply(c, s, step))
  {
    match step {
      case Claim(_, _, _, _, _) => ClaimKeeps(c, s, step);
      case TrySlot(_, _) => TrySlotKeeps(c, s, step);
      case GiveUp(_, _) => GiveUpKeeps(c, s, step);
      case ReleaseSlot(_, _) => PurgeKeeps(c, s, step);
      case ReleaseLease(_, _) => PurgeKeeps(c, s, step);
      case BeatLease(_, _) => BeatLeaseKeeps(c, s, step);
      case BeatSlot(_, _) => BeatSlotKeeps(c, s, step);
      case Tick(_) => TickKeeps(c, s, step);
      case Abort(_) => FewerActorsKeep(c, s, Apply(c, s, step));
      case Crash(_) => FewerActorsKeep(c, s, Apply(c, s, step));
      case Panic(_) => PanicKeeps(c, s, step);
      case Boot(_) => BootKeeps(c, s, step);
    }
  }

  lemma {:induction false} RunKeeps(c: Config, s: State, steps: seq<Step>)
    requires c.RenewsInTime() && Inv(c, s) && Valid(c, s, steps)
    ensures Inv(c, Run(c, s, steps))
    decreases |steps|
  {
    if steps != [] {
      StepKeeps(c, s, steps[0]);
      RunKeeps(c, Apply(c, s, steps[0]), steps[1..]);
    }
  }

  /** At most `n` actors can hold pairwise different slots below `n`. */
  lemma {:induction false} Pigeonhole(slots: map<nat, nat>, n: nat)
    requires forall a :: a in slots ==> slots[a] < n
    requires forall a, b :: a in slots && b in slots && a != b ==> slots[a] != slots[b]
    ensures |slots.Keys| <= n
    decreases n
  {
    if slots.Keys != {} {
      if a :| a in slots && slots[a] == n - 1 {
        Pigeonhole(slots - {a}, n - 1);
        assert slots.Keys == (slots - {a}).Keys + {a};
      } else {
        var a :| a in slots;
        Pigeonhole(slots, n - 1);
      }
    }
  }

  lemma LiveRunsFit(c: Config, s: State)
    requires Inv(c, s)
    ensures |s.LiveRuns()| <= c.Slots()
  {
    var slots := map a | a in s.LiveRuns() :: s.actors[a].stage.slot;
    forall a | a in slots ensures slots[a] < c.Slots() { assert ActorInv(c, s, s.actors[a]); }
    forall a, b | a in slots && b in slots && a != b ensures slots[a] != slots[b] {
      assert Apart(s.actors[a], s.actors[b]);
    }
    Pigeonhole(slots, c.Slots());
    assert slots.Keys == s.LiveRuns();
  }

  lemma InvIsSafe(c: Config, s: State)
    requires Inv(c, s)
    ensures Safe(c, s)
  {
    LiveRunsFit(c, s);
    forall a | s.LiveAt(a) ensures s.actors[a].Lease() in s.kv && s.actors[a].Slot() in s.kv {
      assert ActorInv(c, s, s.actors[a]);
    }
    forall a, b | s.LiveAt(a) && s.LiveAt(b) && a != b
      ensures s.actors[a].Lease() != s.actors[b].Lease() && s.actors[a].Slot() != s.actors[b].Slot()
    {
      assert Apart(s.actors[a], s.actors[b]);
    }
  }

  // ------------------------------------------------------------------ the bound is exact

  ghost predicate NoSharing(s: State)
  {
    forall a, b :: s.LiveAt(a) && s.LiveAt(b) && a != b ==>
      s.actors[a].Lease() != s.actors[b].Lease() && s.actors[a].Slot() != s.actors[b].Slot()
  }

  /** The time of the `i`-th renewal. */
  function BeatTime(c: Config, i: nat): nat { if i == 0 then 0 else BeatTime(c, i - 1) + c.period }

  lemma {:induction false} BeatTimes(c: Config, i: nat)
    ensures BeatTime(c, i) == i * c.period
  {
    if i > 0 {
      BeatTimes(c, i - 1);
      assert i * c.period == (i - 1) * c.period + c.period;
    }
  }

  /** The state of a lone run of task "t" all of whose `i` renewals so far were lost, the last at time `t`. */
  function LostRun(t: nat, i: nat): State
  {
    var entry := Entry("t", 0);
    State(t, Expire(map[LeaseKey("t") := entry, SlotKey(0) := entry], t),
          map[0 := Actor(0, "t", Live(0), false, t, i, t, i)])
  }

  lemma ExpireTwice(kv: Bucket, t: nat, now: nat)
    requires t <= now
    ensures Expire(Expire(kv, t), now) == Expire(kv, now)
  {
  }

  /** Both renewals of a lone live run are lost. */
  lemma BothLost(c: Config, s: State, x: Actor)
    requires s.actors == map[0 := x] && x.stage.Live? && !x.midBeat
    requires x.leaseFails < c.tolerated && x.slotFails < c.tolerated
    ensures var y := x.(leaseBeat := s.now, leaseFails := x.leaseFails + 1,
                        slotBeat := s.now, slotFails := x.slotFails + 1);
            var steps := [BeatLease(0, false)] + ([BeatSlot(0, false)] + []);
            Valid(c, s, steps) && Run(c, s, steps) == State(s.now, s.kv, map[0 := y])
  {
    var s1 := Apply(c, s, BeatLease(0, false));
    RunCons(c, s1, BeatSlot(0, false), []);
    RunCons(c, s, BeatLease(0, false), [BeatSlot(0, false)] + []);
  }

  /** `steps` lead from `s` to `t`. */
  predicate Goes(c: Config, s: State, steps: seq<Step>, t: State) { Valid(c, s, steps) && Run(c, s, steps) == t }

  lemma GoesOn(c: Config, s: State, xs: seq<Step>, t: State, ys: seq<Step>, u: State)
    requires Goes(c, s, xs, t) && Goes(c, t, ys, u)
    ensures Goes(c, s, xs + ys, u)
  {
    RunConcat(c, s, xs, ys);
  }

  lemma LostRoundSteps(c: Config, t: nat, i: nat) returns (steps: seq<Step>)
    requires i < c.tolerated
    ensures Goes(c, LostRun(t, i), steps, LostRun(t + c.period, i + 1))
  {
    var s, entry := LostRun(t, i), Entry("t", 0);
    ExpireTwice(map[LeaseKey("t") := entry, SlotKey(0) := entry], t, t + c.period);
    var s1 := Apply(c, s, Tick(c.period));
    BothLost(c, s1, s.actors[0]);
    RunCons(c, s, Tick(c.period), [BeatLease(0, false)] + ([BeatSlot(0, false)] + []));
    steps := [Tick(c.period)] + ([BeatLease(0, false)] + ([BeatSlot(0, false)] + []));
  }

  lemma LiveReachable(c: Config) returns (steps: seq<Step>)
    ensures Goes(c, Initial, steps, LostRun(0, 0))
  {
    LeaseKeysAreNoSlotKeys("t", 0);
    var s1 := Apply(c, Initial, Claim(0, 0, "t", 1, Done));
    var s2 := Apply(c, s1, TrySlot(0, Done));
    assert s2.kv == LostRun(0, 0).kv;
    RunCons(c, s1, TrySlot(0, Done), []);
    RunCons(c, Initial, Claim(0, 0, "t", 1, Done), [TrySlot(0, Done)] + []);
    steps := [Claim(0, 0, "t", 1, Done)] + ([TrySlot(0, Done)] + []);
  }

  lemma {:induction false} LostRoundsReachable(c: Config, i: nat) returns (steps: seq<Step>)
    requires i <= c.tolerated
    ensures Goes(c, Initial, steps, LostRun(BeatTime(c, i), i))
  {
    if i == 0 {
      steps := LiveReachable(c);
    } else {
      var before := LostRoundsReachable(c, i - 1);
      var t := BeatTime(c, i - 1);
      var round := LostRoundSteps(c, t, i - 1);
      GoesOn(c, Initial, before, LostRun(t, i - 1), round, LostRun(t + c.period, i));
      steps := before + round;
    }
  }

  /** With too slow a heartbeat, a second run takes the same task and slot. */
  lemma SharingReachable(c: Config) returns (steps: seq<Step>)
    requires !c.RenewsInTime()
    ensures Valid(c, Initial, steps) && !NoSharing(Run(c, Initial, steps))
  {
    var before := LostRoundsReachable(c, c.tolerated);
    BeatTimes(c, c.tolerated);
    var t := c.tolerated * c.period;
    assert t + c.period == c.period * (c.tolerated + 1);
    var more, u := SecondRun(c, t, c.tolerated);
    GoesOn(c, Initial, before, LostRun(t, c.tolerated), more, u);
    steps := before + more;
  }

  /** Once the keys of a run have expired, a second daemon takes both. */
  lemma SecondRun(c: Config, t: nat, i: nat) returns (steps: seq<Step>, u: State)
    requires t + c.period >= LEASE_TTL
    ensures Goes(c, LostRun(t, i), steps, u) && !NoSharing(u)
  {
    var s := LostRun(t, i);
    LeaseKeysAreNoSlotKeys("t", 0);
    var s1 := Apply(c, s, Tick(c.period));
    assert s1.kv == map[];
    var s2 := Apply(c, s1, Claim(1, 1, "t", 1, Done));
    u := Apply(c, s2, TrySlot(1, Done));
    RunCons(c, s2, TrySlot(1, Done), []);
    RunCons(c, s1, Claim(1, 1, "t", 1, Done), [TrySlot(1, Done)] + []);
    RunCons(c, s, Tick(c.period), [Claim(1, 1, "t", 1, Done)] + ([TrySlot(1, Done)] + []));
    steps := [Tick(c.period)] + ([Claim(1, 1, "t", 1, Done)] + ([TrySlot(1, Done)] + []));
    assert u.LiveAt(0) && u.LiveAt(1) && u.actors[0].Slot() == u.actors[1].Slot();
  }

  /** Every interleaving is safe exactly when the last tolerated renewal comes before the TTL; and when it
      does not, some interleaving runs one task twice in one slot. */
  lemma SafetyIff(c: Config)
    ensures (forall steps :: Valid(c, Initial, steps) ==> Safe(c, Run(c, Initial, steps))) <==> c.RenewsInTime()
    ensures (forall steps :: Valid(c, Initial, steps) ==> NoSharing(Run(c, Initial, steps))) <==> c.RenewsInTime()
  {
    if c.RenewsInTime() {
      forall steps | Valid(c, Initial, steps) ensures Safe(c, Run(c, Initial, steps)) {
        RunKeeps(c, Initial, steps);
        InvIsSafe(c, Run(c, Initial, steps));
      }
    } else {
      var steps := SharingReachable(c);
      assert !Safe(c, Run(c, Initial, steps));
    }
  }

  /** The source's numbers: three lost renewals in a row are survived, four are not. The loop sleeps for the interval
      and then makes its two requests, so its period is longer; this holds up to half a minute of slack. */
  lemma SourceToleratesThree(maxRuns: nat, period: nat, tolerated: nat)
    requires LEASE_RENEWAL_INTERVAL <= period < LEASE_RENEWAL_INTERVAL + 30
    ensures Config(maxRuns, period, tolerated).RenewsInTime() <==> tolerated <= 3
  {
    if tolerated <= 3 {
      assert period * (tolerated + 1) <= period * 4;
    } else {
      assert period * (tolerated + 1) >= period * 5;
    }
  }
}
