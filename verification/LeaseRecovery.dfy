/** What becomes of keys nobody releases: expiry, heartbeats that go on, and the purge at boot. */
module LeaseRecovery {
  import opened LeaseProtocol

  // ------------------------------------------------------------------ runs that keep a key

  /** No poller, run or lingering heartbeat can name the key. */
  predicate Orphan(s: State, key: string) { forall a :: a in s.actors ==> key !in s.actors[a].Keys() }

  /** The key is in the bucket before and after every step. */
  predicate KeptThroughout(c: Config, s: State, steps: seq<Step>, key: string)
    requires Valid(c, s, steps)
    decreases |steps|
  {
    key in s.kv && (steps == [] || KeptThroughout(c, Apply(c, s, steps[0]), steps[1..], key))
  }

  lemma FreshStep(c: Config, s: State, step: Step)
    requires Unexpired(s) && Enabled(c, s, step)
    ensures Unexpired(Apply(c, s, step))
  {
  }

  lemma {:induction false} FreshRun(c: Config, s: State, steps: seq<Step>)
    requires Unexpired(s) && Valid(c, s, steps)
    ensures Unexpired(Run(c, s, steps))
    decreases |steps|
  {
    if steps != [] {
      FreshStep(c, s, steps[0]);
      FreshRun(c, Apply(c, s, steps[0]), steps[1..]);
    }
  }

  // ------------------------------------------------------------------ actors that renew no more

  /** Every run that lasts until the TTL of the key's last put finds it free at some point. */
  ghost predicate CertainlyFreed(c: Config, s: State, key: string)
    requires key in s.kv
  {
    forall steps :: Valid(c, s, steps) && Run(c, s, steps).now >= s.kv[key].at + LEASE_TTL ==>
      !KeptThroughout(c, s, steps, key)
  }

  /** A released heartbeat whose time is up: it can put its keys no later than `at`. */
  predicate Spent(c: Config, s: State, x: Actor, at: nat)
  {
    x.stage.Released? && x.stage.since + c.period <= at && s.now <= at
  }

  predicate HeldLive(s: State, slot: nat)
  {
    exists b :: b in s.actors && s.actors[b].stage == Live(slot)
  }

  /** A poller whose lease was last put at `at` can come to hold the slot: it is free, or a live run can release it, or
      it expires while both the poller's time and its lease last. */
  predicate Takeable(c: Config, s: State, x: Actor, slot: nat, at: nat)
  {
    || SlotKey(slot) !in s.kv
    || HeldLive(s, slot)
    || (s.kv[SlotKey(slot)].at + LEASE_TTL <= x.leaseBeat + c.period && s.kv[SlotKey(slot)].at < at)
  }

  /** A poller that can become a run. */
  predicate CanRun(c: Config, s: State, x: Actor, at: nat)
    requires x.stage.Claimed?
  {
    exists j :: x.stage.next <= j < x.stage.cap && Takeable(c, s, x, j, at)
  }

  /** The actor will not put the keys it can name now any later than `at`. */
  predicate Idle(c: Config, s: State, x: Actor, at: nat)
  {
    if x.stage.Claimed? then !CanRun(c, s, x, at) else Spent(c, s, x, at)
  }

  predicate AllIdle(c: Config, s: State, key: string, at: nat)
  {
    forall a :: a in s.actors && key in s.actors[a].Keys() ==> Idle(c, s, s.actors[a], at)
  }

  lemma BlockedKey(c: Config, s: State, step: Step, x: Actor, slot: nat, at: nat)
    requires Enabled(c, s, step) && Unexpired(s) && !Takeable(c, s, x, slot, at) && !step.Boot?
    requires step.Tick? ==> s.now + step.dt <= x.leaseBeat + c.period && s.now + step.dt < at + LEASE_TTL
    ensures var key, t := SlotKey(slot), Apply(c, s, step);
            key in t.kv && t.kv[key].at >= s.kv[key].at
  {
    match step {
      case Claim(_, _, task, _, _) => LeaseKeysAreNoSlotKeys(task, slot);
      case GiveUp(b, _) => LeaseKeysAreNoSlotKeys(s.actors[b].task, slot);
      case BeatLease(b, _) => LeaseKeysAreNoSlotKeys(s.actors[b].task, slot);
      case ReleaseLease(b, _) => LeaseKeysAreNoSlotKeys(s.actors[b].task, slot);
      case ReleaseSlot(b, _) =>
        assert s.actors[b].stage == Live(s.actors[b].stage.slot);
        if SlotKey(s.actors[b].stage.slot) == SlotKey(slot) { SlotKeysDiffer(s.actors[b].stage.slot, slot); }
      case _ =>
    }
  }

  lemma BlockedHolder(c: Config, s: State, step: Step, slot: nat)
    requires Enabled(c, s, step) && SlotKey(slot) in s.kv
    ensures HeldLive(Apply(c, s, step), slot) ==> HeldLive(s, slot)
  {
    var t := Apply(c, s, step);
    if HeldLive(t, slot) {
      var b :| b in t.actors && t.actors[b].stage == Live(slot);
      assert b in s.actors && s.actors[b].stage == Live(slot);
    }
  }

  /** No step makes a slot takeable for a poller that goes on polling. */
  lemma StaysBlocked(c: Config, s: State, step: Step, x: Actor, slot: nat, at: nat)
    requires Enabled(c, s, step) && Unexpired(s) && !Takeable(c, s, x, slot, at) && !step.Boot?
    requires step.Tick? ==> s.now + step.dt <= x.leaseBeat + c.period && s.now + step.dt < at + LEASE_TTL
    ensures !Takeable(c, Apply(c, s, step), x, slot, at)
  {
    BlockedKey(c, s, step, x, slot, at);
    BlockedHolder(c, s, step, slot);
  }

  /** A poller that cannot become a run is refused its next slot. */
  lemma RefusedNext(c: Config, s: State, a: nat, reply: Reply, at: nat)
    requires Enabled(c, s, TrySlot(a, reply)) && !CanRun(c, s, s.actors[a], at)
    ensures reply.Refused?
  {
    assert !Takeable(c, s, s.actors[a], s.actors[a].stage.next, at);
  }

  lemma IdlePoller(c: Config, s: State, step: Step, a: nat, at: nat, key: string)
    requires Enabled(c, s, step) && Unexpired(s) && a in s.actors && s.actors[a].stage.Claimed?
    requires !CanRun(c, s, s.actors[a], at) && key in s.kv && s.kv[key].at <= at
    requires key in Apply(c, s, step).kv && a in Apply(c, s, step).actors
    ensures var y := Apply(c, s, step).actors[a];
            y.stage.Claimed? && !CanRun(c, Apply(c, s, step), y, at)
  {
    var x, t := s.actors[a], Apply(c, s, step);
    if step.TrySlot? && step.a == a { RefusedNext(c, s, a, step.reply, at); }
    var y := t.actors[a];
    forall j | y.stage.next <= j < y.stage.cap ensures !Takeable(c, t, y, j, at) {
      assert !Takeable(c, s, x, j, at);
      StaysBlocked(c, s, step, x, j, at);
    }
  }

  lemma IdleActor(c: Config, s: State, step: Step, a: nat, at: nat, key: string)
    requires Enabled(c, s, step) && Unexpired(s) && a in s.actors && Idle(c, s, s.actors[a], at)
    requires key in s.kv && s.kv[key].at <= at && key in Apply(c, s, step).kv && a in Apply(c, s, step).actors
    ensures Idle(c, Apply(c, s, step), Apply(c, s, step).actors[a], at)
  {
    if s.actors[a].stage.Claimed? { IdlePoller(c, s, step, a, at, key); }
  }

  /** Who can name the key after a step could name it before. */
  lemma NamedBefore(c: Config, s: State, step: Step, a: nat, key: string)
    requires Enabled(c, s, step) && key in s.kv
    requires a in Apply(c, s, step).actors && key in Apply(c, s, step).actors[a].Keys()
    ensures a in s.actors && key in s.actors[a].Keys()
  {
  }

  /** No idle actor puts the key late. */
  lemma PutInTime(c: Config, s: State, step: Step, key: string, at: nat)
    requires Enabled(c, s, step) && AllIdle(c, s, key, at) && key in s.kv && s.kv[key].at <= at
    ensures key in Apply(c, s, step).kv ==> Apply(c, s, step).kv[key].at <= at
  {
    match step {
      case BeatLease(a, _) => if s.actors[a].Lease() == key { assert Idle(c, s, s.actors[a], at); }
      case BeatSlot(a, _) => if s.actors[a].Slot() == key { assert Idle(c, s, s.actors[a], at); }
      case _ =>
    }
  }

  lemma IdleStep(c: Config, s: State, step: Step, key: string, at: nat)
    requires Enabled(c, s, step) && Unexpired(s) && AllIdle(c, s, key, at) && key in s.kv && s.kv[key].at <= at
    ensures var t := Apply(c, s, step);
            key in t.kv ==> t.kv[key].at <= at && AllIdle(c, t, key, at)
  {
    var t := Apply(c, s, step);
    PutInTime(c, s, step, key, at);
    if key in t.kv {
      forall a | a in t.actors && key in t.actors[a].Keys() ensures Idle(c, t, t.actors[a], at) {
        NamedBefore(c, s, step, a, key);
        IdleActor(c, s, step, a, at, key);
      }
    }
  }

  lemma {:induction false} IdleIsFreed(c: Config, s: State, steps: seq<Step>, key: string, at: nat)
    requires Unexpired(s) && Valid(c, s, steps) && AllIdle(c, s, key, at)
    requires key in s.kv && s.kv[key].at <= at && Run(c, s, steps).now >= at + LEASE_TTL
    ensures !KeptThroughout(c, s, steps, key)
    decreases |steps|
  {
    if steps != [] {
      FreshStep(c, s, steps[0]);
      IdleStep(c, s, steps[0], key, at);
      var s1 := Apply(c, s, steps[0]);
      if key in s1.kv { IdleIsFreed(c, s1, steps[1..], key, at); }
    }
  }

  /** In every reachable state: a key nobody can name is free at some point within the TTL of its last put, whatever
      else happens: left behind by a crash, by a failed purge, or by a heartbeat that fired after the release. */
  lemma OrphanIsFreed(c: Config, before: seq<Step>, steps: seq<Step>, key: string)
    requires Valid(c, Initial, before) && Valid(c, Run(c, Initial, before), steps)
    requires var s := Run(c, Initial, before);
             key in s.kv && Orphan(s, key) && Run(c, s, steps).now >= s.kv[key].at + LEASE_TTL
    ensures !KeptThroughout(c, Run(c, Initial, before), steps, key)
  {
    FreshRun(c, Initial, before);
    IdleIsFreed(c, Run(c, Initial, before), steps, key, Run(c, Initial, before).kv[key].at);
  }

  // ------------------------------------------------------------------ keys that are kept

  /** `steps` lead from `s` to `t` with the keys in the bucket all the way. */
  ghost predicate Leads(c: Config, s: State, steps: seq<Step>, t: State, keys: set<string>)
  {
    Valid(c, s, steps) && Run(c, s, steps) == t && forall key :: key in keys ==> KeptThroughout(c, s, steps, key)
  }

  lemma LeadsCons(c: Config, s: State, step: Step, rest: seq<Step>, t: State, keys: set<string>)
    requires Enabled(c, s, step) && keys <= s.kv.Keys && Leads(c, Apply(c, s, step), rest, t, keys)
    ensures Leads(c, s, [step] + rest, t, keys)
  {
    assert ([step] + rest)[1..] == rest;
  }

  lemma {:induction false} LeadsConcat(c: Config, s: State, xs: seq<Step>, t: State, ys: seq<Step>, u: State,
                                       keys: set<string>)
    requires Leads(c, s, xs, t, keys) && Leads(c, t, ys, u, keys)
    ensures Leads(c, s, xs + ys, u, keys)
    decreases |xs|
  {
    if xs == [] {
      assert xs + ys == ys;
    } else {
      var s1 := Apply(c, s, xs[0]);
      forall key | key in keys ensures key in s.kv && KeptThroughout(c, s1, xs[1..], key) {
        assert KeptThroughout(c, s, xs, key);
      }
      LeadsConcat(c, s1, xs[1..], t, ys, u, keys);
      LeadsCons(c, s, xs[0], xs[1..] + ys, u, keys);
      assert [xs[0]] + (xs[1..] + ys) == xs + ys;
    }
  }

  /** A poller goes over the slots below `j`, all refused. */
  lemma {:induction false} ScanLeads(c: Config, s: State, a: nat, j: nat, keys: set<string>)
    returns (steps: seq<Step>, t: State)
    requires a in s.actors && s.actors[a].stage.Claimed? && keys <= s.kv.Keys
    requires s.actors[a].stage.next <= j <= s.actors[a].stage.cap
    ensures Leads(c, s, steps, t, keys)
    ensures t == s.(actors := s.actors[a := s.actors[a].(stage := Claimed(j, s.actors[a].stage.cap))])
    decreases j - s.actors[a].stage.next
  {
    if s.actors[a].stage.next == j {
      steps, t := [], s;
      assert s.actors[a := s.actors[a]] == s.actors;
    } else {
      var rest;
      rest, t := ScanLeads(c, Apply(c, s, TrySlot(a, Refused)), a, j, keys);
      LeadsCons(c, s, TrySlot(a, Refused), rest, t, keys);
      steps := [TrySlot(a, Refused)] + rest;
    }
  }

  /** A poller takes a free slot. */
  lemma TakeLeads(c: Config, s: State, a: nat, j: nat, keys: set<string>) returns (steps: seq<Step>, t: State)
    requires a in s.actors && s.actors[a].stage.Claimed? && keys <= s.kv.Keys && SlotKey(j) !in s.kv
    requires s.actors[a].stage.next <= j < s.actors[a].stage.cap
    ensures Leads(c, s, steps, t, keys) && t.now == s.now && a in t.actors
    ensures t.actors[a].stage == Live(j) && t.actors[a].task == s.actors[a].task
    ensures forall b :: b != a && b in s.actors ==> b in t.actors && t.actors[b] == s.actors[b]
    ensures t.kv == s.kv[SlotKey(j) := Entry(s.actors[a].task, s.now)]
  {
    var scan, s1 := ScanLeads(c, s, a, j, keys);
    t := Apply(c, s1, TrySlot(a, Done));
    LeadsCons(c, s1, TrySlot(a, Done), [], t, keys);
    LeadsConcat(c, s, scan, s1, [TrySlot(a, Done)] + [], t, keys);
    steps := scan + ([TrySlot(a, Done)] + []);
  }

  /** `b` is gone or panicked, and nothing else is different. */
  ghost predicate Retired(s: State, t: State, b: nat)
  {
    && t.kv == s.kv && t.now == s.now
    && (forall x :: x != b ==> (x in t.actors <==> x in s.actors))
    && (forall x :: x != b && x in s.actors && x in t.actors ==> t.actors[x] == s.actors[x])
    && (b in t.actors ==> t.actors[b].stage.Panicked?)
  }

  lemma RetireOne(c: Config, s: State, b: nat, keys: set<string>) returns (steps: seq<Step>, t: State)
    requires b in s.actors && keys <= s.kv.Keys
    ensures Leads(c, s, steps, t, keys) && Retired(s, t, b)
  {
    match s.actors[b].stage {
      case Claimed(next, cap) =>
        var scan, s1 := [], s;
        if next < cap { scan, s1 := ScanLeads(c, s, b, cap, keys); }
        t := Apply(c, s1, GiveUp(b, false));
        LeadsCons(c, s1, GiveUp(b, false), [], t, keys);
        LeadsConcat(c, s, scan, s1, [GiveUp(b, false)] + [], t, keys);
        steps := scan + ([GiveUp(b, false)] + []);
      case Live(_) =>
        t := Apply(c, s, Panic(b));
        LeadsCons(c, s, Panic(b), [], t, keys);
        steps := [Panic(b)] + [];
      case SlotReleased(_) =>
        var s1 := Apply(c, s, ReleaseLease(b, false));
        t := Apply(c, s1, Abort(b));
        LeadsCons(c, s1, Abort(b), [], t, keys);
        LeadsCons(c, s, ReleaseLease(b, false), [Abort(b)] + [], t, keys);
        steps := [ReleaseLease(b, false)] + ([Abort(b)] + []);
      case Released(_, _) =>
        t := Apply(c, s, Abort(b));
        LeadsCons(c, s, Abort(b), [], t, keys);
        steps := [Abort(b)] + [];
      case Panicked(_) =>
        steps, t := [], s;
    }
  }

  /** Everybody but `a` who still has anything to do. */
  function Restless(s: State, a: nat): set<nat>
  {
    set b | b in s.actors && b != a && !s.actors[b].stage.Panicked?
  }

  lemma {:induction false} RetireOthers(c: Config, s: State, a: nat, keys: set<string>)
    returns (steps: seq<Step>, t: State)
    requires a in s.actors && keys <= s.kv.Keys
    ensures Leads(c, s, steps, t, keys) && Restless(t, a) == {}
    ensures t.kv == s.kv && t.now == s.now && a in t.actors && t.actors[a] == s.actors[a]
    decreases |Restless(s, a)|
  {
    if Restless(s, a) == {} {
      steps, t := [], s;
    } else {
      var b :| b in Restless(s, a);
      var first, s1 := RetireOne(c, s, b, keys);
      assert Restless(s1, a) == Restless(s, a) - {b};
      var rest;
      rest, t := RetireOthers(c, s1, a, keys);
      LeadsConcat(c, s, first, s1, rest, t, keys);
      steps := first + rest;
    }
  }

  /** Actor `a` has just renewed both its keys. */
  ghost predicate JustBeat(s: State, a: nat, task: string, stage: Stage)
  {
    && a in s.actors && s.actors[a].task == task && s.actors[a].stage == stage
    && !stage.Claimed? && !s.actors[a].midBeat && s.actors[a].leaseBeat == s.actors[a].slotBeat == s.now
    && forall key :: key in s.actors[a].Keys() ==> key in s.kv && s.kv[key].at == s.now
  }

  lemma BeatBoth(c: Config, s: State, a: nat, keys: set<string>) returns (steps: seq<Step>, t: State)
    requires a in s.actors && !s.actors[a].stage.Claimed? && !s.actors[a].midBeat && keys <= s.kv.Keys
    ensures Leads(c, s, steps, t, keys) && JustBeat(t, a, s.actors[a].task, s.actors[a].stage)
    ensures t.now == s.now && Restless(t, a) == Restless(s, a)
  {
    var s1 := Apply(c, s, BeatLease(a, true));
    t := Apply(c, s1, BeatSlot(a, true));
    LeadsCons(c, s1, BeatSlot(a, true), [], t, keys);
    LeadsCons(c, s, BeatLease(a, true), [BeatSlot(a, true)] + [], t, keys);
    steps := [BeatLease(a, true)] + ([BeatSlot(a, true)] + []);
  }

  lemma Freshen(c: Config, s: State, a: nat, keys: set<string>) returns (steps: seq<Step>, t: State)
    requires a in s.actors && !s.actors[a].stage.Claimed? && keys <= s.kv.Keys
    ensures Leads(c, s, steps, t, keys) && JustBeat(t, a, s.actors[a].task, s.actors[a].stage)
    ensures t.now == s.now && Restless(t, a) == Restless(s, a)
  {
    if s.actors[a].midBeat {
      var s1 := Apply(c, s, BeatSlot(a, true));
      var rest;
      rest, t := BeatBoth(c, s1, a, keys);
      LeadsCons(c, s, BeatSlot(a, true), rest, t, keys);
      steps := [BeatSlot(a, true)] + rest;
    } else {
      steps, t := BeatBoth(c, s, a, keys);
    }
  }

  /** Time in which nobody but `a` has an obligation, and its keys are young enough. */
  lemma Waits(c: Config, s: State, a: nat, task: string, stage: Stage, dt: nat) returns (t: State)
    requires JustBeat(s, a, task, stage) && Restless(s, a) == {} && dt < LEASE_TTL
    requires if stage.Released? then s.now + dt <= stage.since + c.period else dt <= c.period
    ensures Enabled(c, s, Tick(dt)) && t == Apply(c, s, Tick(dt))
    ensures t.now == s.now + dt && t.actors == s.actors && s.actors[a].Keys() <= t.kv.Keys
  {
    forall b | b in s.actors && b != a ensures s.actors[b].stage.Panicked? {
      assert b !in Restless(s, a);
    }
    t := Apply(c, s, Tick(dt));
  }

  /** A heartbeat that goes on, period after period. */
  lemma {:induction false} BeatsOn(c: Config, s: State, a: nat, task: string, stage: Stage, n: nat, keys: set<string>)
    returns (steps: seq<Step>, t: State)
    requires 0 < c.period < LEASE_TTL && JustBeat(s, a, task, stage) && !stage.Released? && Restless(s, a) == {}
    requires keys <= {LeaseKey(task), SlotKey(stage.slot)}
    ensures Leads(c, s, steps, t, keys) && t.now >= s.now + n
    ensures Restless(t, a) == {} && a in t.actors && t.actors[a].stage == stage
    decreases n
  {
    assert s.actors[a].Keys() == {LeaseKey(task), SlotKey(stage.slot)};
    if n == 0 {
      steps, t := [], s;
    } else {
      var s1 := Waits(c, s, a, task, stage, c.period);
      assert Restless(s1, a) == Restless(s, a);
      var beats, s2 := Freshen(c, s1, a, keys);
      var rest;
      rest, t := BeatsOn(c, s2, a, task, stage, if n < c.period then 0 else n - c.period, keys);
      LeadsConcat(c, s1, beats, s2, rest, t, keys);
      LeadsCons(c, s, Tick(c.period), beats + rest, t, keys);
      steps := [Tick(c.period)] + (beats + rest);
    }
  }

  /** A run, a run that is being released, or a heartbeat left behind by a panic can keep its keys for any time,
      whatever the other actors are. */
  lemma HeartbeatKeeps(c: Config, s: State, a: nat, n: nat, keys: set<string>) returns (steps: seq<Step>, t: State)
    requires 0 < c.period < LEASE_TTL && a in s.actors && !s.actors[a].stage.Claimed? && !s.actors[a].stage.Released?
    requires keys <= s.actors[a].Keys() && keys <= s.kv.Keys
    ensures Leads(c, s, steps, t, keys) && t.now >= s.now + n
    ensures Restless(t, a) == {} && a in t.actors && t.actors[a].stage == s.actors[a].stage
  {
    var retire, s1 := RetireOthers(c, s, a, keys);
    var beat, s2 := Freshen(c, s1, a, keys);
    var on;
    on, t := BeatsOn(c, s2, a, s.actors[a].task, s.actors[a].stage, n, keys);
    LeadsConcat(c, s1, beat, s2, on, t, keys);
    LeadsConcat(c, s, retire, s1, beat + on, t, keys);
    steps := retire + (beat + on);
  }

  /** A released heartbeat that can still put its keys later than `at` keeps them past their time. */
  lemma LateBeatKeeps(c: Config, s: State, a: nat, at: nat, keys: set<string>) returns (steps: seq<Step>, t: State)
    requires 0 < c.period < LEASE_TTL && a in s.actors && s.actors[a].stage.Released? && at <= s.now
    requires keys <= s.actors[a].Keys() && keys <= s.kv.Keys && !Spent(c, s, s.actors[a], at)
    ensures Leads(c, s, steps, t, keys) && t.now >= at + LEASE_TTL
  {
    var task, stage := s.actors[a].task, s.actors[a].stage;
    var retire, s1 := RetireOthers(c, s, a, keys);
    var beat, s2 := Freshen(c, s1, a, keys);
    LeadsConcat(c, s, retire, s1, beat, s2, keys);
    steps, t := retire + beat, s2;
    if s.now == at {
      var s3 := Waits(c, s2, a, task, stage, 1);
      assert Restless(s3, a) == Restless(s2, a);
      var again, s4 := Freshen(c, s3, a, keys);
      LeadsCons(c, s2, Tick(1), again, s4, keys);
      LeadsConcat(c, s, steps, s2, [Tick(1)] + again, s4, keys);
      steps, t := steps + ([Tick(1)] + again), s4;
    }
    var more, u := AbortAndWait(c, t, a, task, stage, at + LEASE_TTL, keys);
    LeadsConcat(c, s, steps, t, more, u, keys);
    steps, t := steps + more, u;
  }

  lemma AbortAndWait(c: Config, s: State, a: nat, task: string, stage: Stage, until: nat, keys: set<string>)
    returns (steps: seq<Step>, t: State)
    requires JustBeat(s, a, task, stage) && stage.Released? && Restless(s, a) == {} && until < s.now + LEASE_TTL
    requires keys <= s.actors[a].Keys()
    ensures Leads(c, s, steps, t, keys) && t.now >= until
  {
    var s1 := Apply(c, s, Abort(a));
    forall b | b in s1.actors ensures s1.actors[b].stage.Panicked? { assert b !in Restless(s, a); }
    var dt := if until > s.now then until - s.now else 0;
    t := Apply(c, s1, Tick(dt));
    LeadsCons(c, s1, Tick(dt), [], t, keys);
    LeadsCons(c, s, Abort(a), [Tick(dt)] + [], t, keys);
    steps := [Abort(a)] + ([Tick(dt)] + []);
  }

  /** A poller gets a takeable slot, with its lease in the bucket all the way. */
  lemma PollerTakes(c: Config, s: State, a: nat, j: nat) returns (steps: seq<Step>, t: State)
    requires Unexpired(s) && a in s.actors && s.actors[a].stage.Claimed? && s.actors[a].Lease() in s.kv
    requires s.actors[a].stage.next <= j < s.actors[a].stage.cap
    requires Takeable(c, s, s.actors[a], j, s.kv[s.actors[a].Lease()].at)
    ensures Leads(c, s, steps, t, {s.actors[a].Lease()}) && t.now >= s.now && a in t.actors
    ensures t.actors[a].stage == Live(j) && t.actors[a].task == s.actors[a].task && s.actors[a].Lease() in t.kv
  {
    var x, keys := s.actors[a], {s.actors[a].Lease()};
    LeaseKeysAreNoSlotKeys(x.task, j);
    if SlotKey(j) !in s.kv {
      steps, t := TakeLeads(c, s, a, j, keys);
    } else {
      var first, s1;
      if HeldLive(s, j) {
        var b :| b in s.actors && s.actors[b].stage == Live(j);
        first, s1 := [ReleaseSlot(b, true)] + [], Apply(c, s, ReleaseSlot(b, true));
        LeadsCons(c, s, ReleaseSlot(b, true), [], s1, keys);
      } else {
        first, s1 := SlotExpires(c, s, a, j);
      }
      var take;
      take, t := TakeLeads(c, s1, a, j, keys);
      LeadsConcat(c, s, first, s1, take, t, keys);
      steps := first + take;
    }
  }

  /** The slot expires before the poller's time is up and before its lease. */
  lemma SlotExpires(c: Config, s: State, a: nat, j: nat) returns (steps: seq<Step>, t: State)
    requires Unexpired(s) && a in s.actors && s.actors[a].stage.Claimed? && s.actors[a].Lease() in s.kv
    requires SlotKey(j) in s.kv && s.kv[SlotKey(j)].at + LEASE_TTL <= s.actors[a].leaseBeat + c.period
    requires s.kv[SlotKey(j)].at < s.kv[s.actors[a].Lease()].at
    ensures Leads(c, s, steps, t, {s.actors[a].Lease()}) && t.now >= s.now && SlotKey(j) !in t.kv
    ensures s.actors[a].Lease() in t.kv && a in t.actors && t.actors[a] == s.actors[a]
  {
    var keys, dt := {s.actors[a].Lease()}, s.kv[SlotKey(j)].at + LEASE_TTL - s.now;
    var retire, s1 := RetireOthers(c, s, a, keys);
    forall b | b in s1.actors && b != a ensures s1.actors[b].stage.Panicked? { assert b !in Restless(s1, a); }
    t := Apply(c, s1, Tick(dt));
    LeadsCons(c, s1, Tick(dt), [], t, keys);
    LeadsConcat(c, s, retire, s1, [Tick(dt)] + [], t, keys);
    steps := retire + ([Tick(dt)] + []);
  }

  /** A poller that can become a run can keep its lease for any time. */
  lemma PollerKeeps(c: Config, s: State, a: nat, n: nat) returns (steps: seq<Step>, t: State)
    requires 0 < c.period < LEASE_TTL && Unexpired(s) && a in s.actors && s.actors[a].stage.Claimed?
    requires s.actors[a].Lease() in s.kv && CanRun(c, s, s.actors[a], s.kv[s.actors[a].Lease()].at)
    ensures Leads(c, s, steps, t, {s.actors[a].Lease()}) && t.now >= s.now + n
  {
    var x := s.actors[a];
    var keys := {x.Lease()};
    var j :| x.stage.next <= j < x.stage.cap && Takeable(c, s, x, j, s.kv[x.Lease()].at);
    var take, s1 := PollerTakes(c, s, a, j);
    var on;
    on, t := HeartbeatKeeps(c, s1, a, n, keys);
    LeadsConcat(c, s, take, s1, on, t, keys);
    steps := take + on;
  }

  // ------------------------------------------------------------------ which keys are freed

  /** Whoever is not idle can keep a key it names past its time. */
  lemma BusyKeeps(c: Config, s: State, a: nat, key: string) returns (steps: seq<Step>, t: State)
    requires 0 < c.period < LEASE_TTL && Unexpired(s) && key in s.kv && a in s.actors && key in s.actors[a].Keys()
    requires !Idle(c, s, s.actors[a], s.kv[key].at)
    ensures Leads(c, s, steps, t, {key}) && t.now >= s.kv[key].at + LEASE_TTL
  {
    if s.actors[a].stage.Claimed? {
      steps, t := PollerKeeps(c, s, a, LEASE_TTL);
    } else if s.actors[a].stage.Released? {
      steps, t := LateBeatKeeps(c, s, a, s.kv[key].at, {key});
    } else {
      steps, t := HeartbeatKeeps(c, s, a, LEASE_TTL, {key});
    }
  }

  /** In any state, a key is certain to be free at some point within the TTL of its last put exactly when every actor
      that can name it is idle. */
  lemma KeyFreedIff(c: Config, s: State, key: string)
    requires 0 < c.period < LEASE_TTL && Unexpired(s) && key in s.kv
    ensures CertainlyFreed(c, s, key) <==> AllIdle(c, s, key, s.kv[key].at)
  {
    var at := s.kv[key].at;
    if AllIdle(c, s, key, at) {
      forall steps | Valid(c, s, steps) && Run(c, s, steps).now >= at + LEASE_TTL
        ensures !KeptThroughout(c, s, steps, key)
      {
        IdleIsFreed(c, s, steps, key, at);
      }
    } else {
      var a :| a in s.actors && key in s.actors[a].Keys() && !Idle(c, s, s.actors[a], at);
      var steps, t := BusyKeeps(c, s, a, key);
      assert key in {key} && KeptThroughout(c, s, steps, key);
    }
  }

  /** A task's lease: every run, half-finished release and heartbeat with that lease is a released heartbeat that
      cannot put it any later, and no poller with it can come to hold a slot. */
  lemma LeaseFreedIff(c: Config, s: State, task: string)
    requires 0 < c.period < LEASE_TTL && Unexpired(s) && LeaseKey(task) in s.kv
    ensures var at := s.kv[LeaseKey(task)].at;
            CertainlyFreed(c, s, LeaseKey(task))
            <==> forall a :: a in s.actors && s.actors[a].Lease() == LeaseKey(task) ==>
                   if s.actors[a].stage.Claimed? then !CanRun(c, s, s.actors[a], at)
                   else Spent(c, s, s.actors[a], at)
  {
    KeyFreedIff(c, s, LeaseKey(task));
    forall a | a in s.actors
      ensures LeaseKey(task) in s.actors[a].Keys() <==> s.actors[a].Lease() == LeaseKey(task)
    {
      if !s.actors[a].stage.Claimed? { LeaseKeysAreNoSlotKeys(task, s.actors[a].stage.slot); }
    }
  }

  lemma NamedSlots(x: Actor, slot: nat)
    ensures SlotKey(slot) in x.Keys() <==> !x.stage.Claimed? && x.stage.slot == slot
  {
    LeaseKeysAreNoSlotKeys(x.task, slot);
    if !x.stage.Claimed? && SlotKey(slot) == x.Slot() { SlotKeysDiffer(slot, x.stage.slot); }
  }

  /** A slot: only released heartbeats that cannot put it any later have it. */
  lemma SlotFreedIff(c: Config, s: State, slot: nat)
    requires 0 < c.period < LEASE_TTL && Unexpired(s) && SlotKey(slot) in s.kv
    ensures CertainlyFreed(c, s, SlotKey(slot))
            <==> forall a :: a in s.actors && !s.actors[a].stage.Claimed? && s.actors[a].stage.slot == slot ==>
                   Spent(c, s, s.actors[a], s.kv[SlotKey(slot)].at)
  {
    KeyFreedIff(c, s, SlotKey(slot));
    forall a | a in s.actors
      ensures SlotKey(slot) in s.actors[a].Keys()
              <==> !s.actors[a].stage.Claimed? && s.actors[a].stage.slot == slot
    {
      NamedSlots(s.actors[a], slot);
    }
  }

  /** Once time has passed since a slot's last put, that means: exactly when no actor names it at all. */
  lemma SlotFreedIffOrphan(c: Config, s: State, slot: nat)
    requires 0 < c.period < LEASE_TTL && Unexpired(s) && SlotKey(slot) in s.kv && s.kv[SlotKey(slot)].at < s.now
    ensures CertainlyFreed(c, s, SlotKey(slot)) <==> Orphan(s, SlotKey(slot))
  {
    KeyFreedIff(c, s, SlotKey(slot));
    forall a | a in s.actors && SlotKey(slot) in s.actors[a].Keys()
      ensures !Idle(c, s, s.actors[a], s.kv[SlotKey(slot)].at)
    {
      NamedSlots(s.actors[a], slot);
    }
  }

  /** At that very time the two differ: a heartbeat that has just put the slot and whose abort is due still names it,
      and the slot is freed all the same. */
  lemma SpentIsNoOrphan(c: Config, task: string, slot: nat)
    requires 0 < c.period < LEASE_TTL
    ensures var key := SlotKey(slot);
            var s := State(c.period, map[key := Entry(task, c.period)],
                           map[0 := Actor(0, task, Released(slot, 0), false, c.period, 0, c.period, 0)]);
            Unexpired(s) && !Orphan(s, key) && CertainlyFreed(c, s, key)
  {
    var x := Actor(0, task, Released(slot, 0), false, c.period, 0, c.period, 0);
    var s := State(c.period, map[SlotKey(slot) := Entry(task, c.period)], map[0 := x]);
    NamedSlots(x, slot);
    assert 0 in s.actors && SlotKey(slot) in s.actors[0].Keys();
    SlotFreedIff(c, s, slot);
  }

  // ------------------------------------------------------------------ panics

  /** A panic of any run, beside any other actors: from then on both its keys can stay taken for any time, while nothing
      executes, because nobody aborts its heartbeat. */
  lemma PanickedKeysStayTaken(c: Config, s: State, a: nat, n: nat) returns (steps: seq<Step>)
    requires 0 < c.period < LEASE_TTL && s.LiveAt(a) && s.actors[a].Lease() in s.kv && s.actors[a].Slot() in s.kv
    ensures steps != [] && steps[0] == Panic(a) && Valid(c, s, steps) && Run(c, s, steps).now >= s.now + n
    ensures KeptThroughout(c, s, steps, s.actors[a].Lease()) && KeptThroughout(c, s, steps, s.actors[a].Slot())
    ensures Run(c, s, steps).LiveRuns() == {}
  {
    var keys, s1 := s.actors[a].Keys(), Apply(c, s, Panic(a));
    var rest, t := HeartbeatKeeps(c, s1, a, n, keys);
    LeadsCons(c, s, Panic(a), rest, t, keys);
    steps := [Panic(a)] + rest;
    assert s.actors[a].Lease() in keys && s.actors[a].Slot() in keys;
    forall b | b in t.actors ensures t.actors[b].stage.Panicked? {
      if b != a { assert b !in Restless(t, a); }
    }
  }

  /** While a lease stays in the bucket no poller gets its task. */
  lemma {:induction false} KeptIsUnclaimed(c: Config, s: State, steps: seq<Step>, task: string)
    requires Valid(c, s, steps) && KeptThroughout(c, s, steps, LeaseKey(task))
    ensures forall i :: 0 <= i < |steps| && steps[i].Claim? && steps[i].task == task ==> steps[i].reply.Refused?
    decreases |steps|
  {
    if steps != [] {
      KeptIsUnclaimed(c, Apply(c, s, steps[0]), steps[1..], task);
      forall i | 0 < i < |steps| ensures steps[i] == steps[1..][i - 1] {}
    }
  }

  /** Any task in any slot can come to panic. */
  lemma PanicReachable(c: Config, task: string, slot: nat) returns (steps: seq<Step>)
    requires slot < c.Slots()
    ensures Valid(c, Initial, steps) && Run(c, Initial, steps).now == 0
    ensures var s := Run(c, Initial, steps);
            0 in s.actors && s.actors[0].task == task && s.actors[0].stage == Panicked(slot)
  {
    var live := BootFreesEverything(c, Initial, 0, task, slot);
    var s := Run(c, Initial, live);
    RunCons(c, s, Panic(0), []);
    RunConcat(c, Initial, live, [Panic(0)] + []);
    steps := live + ([Panic(0)] + []);
  }

  // ------------------------------------------------------------------ boot

  /** A boot beside a live run of another daemon lets that run's task and slot be taken a second time. */
  lemma BootBesideLiveRunShares(c: Config, s: State, a: nat, b: nat) returns (steps: seq<Step>)
    requires Inv(c, s) && s.LiveAt(a) && b !in s.actors
    ensures Valid(c, BootPurge(s, {}), steps) && !NoSharing(Run(c, BootPurge(s, {}), steps))
  {
    var x := s.actors[a];
    var s0 := BootPurge(s, {});
    var claim := Claim(b, x.daemon + 1, x.task, x.stage.slot + 1, Done);
    var s1 := Apply(c, s0, claim);
    LeaseKeysAreNoSlotKeys(x.task, x.stage.slot);
    var take, s3 := TakeLeads(c, s1, b, x.stage.slot, {});
    RunCons(c, s0, claim, take);
    steps := [claim] + take;
    assert s3.LiveAt(a) && s3.LiveAt(b) && s3.actors[a].Slot() == s3.actors[b].Slot();
  }

  /** After a boot whose purges all went through, every task and every slot can be taken. */
  lemma BootFreesEverything(c: Config, s: State, a: nat, task: string, slot: nat) returns (steps: seq<Step>)
    requires s.NobodyOwns() && a !in s.actors && slot < c.Slots()
    ensures Valid(c, s, steps)
    ensures Run(c, s, steps).LiveAt(a) && Run(c, s, steps).actors[a].task == task
    ensures Run(c, s, steps).actors[a].stage.slot == slot && Run(c, s, steps).now == s.now
  {
    var s0 := Apply(c, s, Boot({}));
    var claim := Claim(a, 0, task, slot + 1, Done);
    var s1 := Apply(c, s0, claim);
    LeaseKeysAreNoSlotKeys(task, slot);
    var take, s2 := TakeLeads(c, s1, a, slot, {});
    RunCons(c, s0, claim, take);
    RunCons(c, s, Boot({}), [claim] + take);
    steps := [Boot({})] + ([claim] + take);
  }

  /** What remains of an owner that is not running takes the lease of whoever claims its task next. */
  lemma OwnerPurgesSuccessor(c: Config, s: State, a: nat, b: nat, purge: Step) returns (steps: seq<Step>)
    requires a in s.actors && b !in s.actors && s.kv == map[]
    requires purge == GiveUp(a, true) || purge == ReleaseLease(a, true)
    requires Enabled(c, s, purge)
    ensures Valid(c, s, steps) && !Safe(c, Run(c, s, steps))
  {
    var task := s.actors[a].task;
    LeaseKeysAreNoSlotKeys(task, 0);
    var s1 := Apply(c, s, Claim(b, s.actors[a].daemon + 1, task, 1, Done));
    var s2 := Apply(c, s1, TrySlot(b, Done));
    var s3 := Apply(c, s2, purge);
    RunCons(c, s2, purge, []);
    RunCons(c, s1, TrySlot(b, Done), [purge] + []);
    steps := [Claim(b, s.actors[a].daemon + 1, task, 1, Done)] + ([TrySlot(b, Done)] + ([purge] + []));
    RunCons(c, s, Claim(b, s.actors[a].daemon + 1, task, 1, Done), [TrySlot(b, Done)] + ([purge] + []));
    assert s3.LiveAt(b) && s3.actors[b].Lease() !in s3.kv;
  }

  /** From a purged bucket, any owner leads to an unsafe state. */
  lemma OwnerBreaks(c: Config, s: State, a: nat) returns (steps: seq<Step>)
    requires a in s.actors && s.actors[a].OwnsLease() && s.kv == map[]
    ensures Valid(c, s, steps) && !Safe(c, Run(c, s, steps))
  {
    var x := s.actors[a];
    if x.stage.Live? {
      steps := [];
      assert s.LiveAt(a);
    } else if x.stage.Claimed? && x.stage.next < x.stage.cap {
      LeaseKeysAreNoSlotKeys(x.task, x.stage.next);
      var s1 := Apply(c, s, TrySlot(a, Done));
      RunCons(c, s, TrySlot(a, Done), []);
      steps := [TrySlot(a, Done)] + [];
      assert s1.LiveAt(a) && s1.actors[a].Lease() !in s1.kv;
    } else {
      var b := FreshId(s.actors);
      steps := OwnerPurgesSuccessor(c, s, a, b, if x.stage.Claimed? then GiveUp(a, true) else ReleaseLease(a, true));
    }
  }

  /** After a boot that purges every key, all the runs that follow are safe exactly when nobody held anything: no live
      run, no poller and no half-finished release of any daemon. */
  lemma BootIff(c: Config, s: State)
    requires c.RenewsInTime() && Inv(c, s)
    ensures (forall steps :: Valid(c, BootPurge(s, {}), steps) ==> Safe(c, Run(c, BootPurge(s, {}), steps)))
            <==> s.NobodyOwns()
  {
    var t := BootPurge(s, {});
    if s.NobodyOwns() {
      forall steps | Valid(c, t, steps) ensures Safe(c, Run(c, t, steps)) {
        RunKeeps(c, t, steps);
        InvIsSafe(c, Run(c, t, steps));
      }
    } else {
      var a :| a in s.actors && s.actors[a].OwnsLease();
      var steps := OwnerBreaks(c, t, a);
    }
  }
}
