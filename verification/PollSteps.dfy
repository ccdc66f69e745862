/** A poll round request by request: between any two requests of the poller, other actors and the clock may take any
    steps, and each request may fail or lose its reply on its own. */
module PollSteps {
  import opened Wrappers
  import opened LeaseProtocol
  import opened Scheduler

  /** What a round works through: the pending tasks, the resource check before each, the slots, and its daemon. */
  datatype Plan = Plan(pending: seq<string>, admit: nat -> bool, n: nat, daemon: nat)
  {
    predicate Fits(c: Config) { 1 <= n <= c.Slots() }
  }

  /** Where the loop is; `a` is the actor of the claim in hand. */
  datatype Poller = AtTask(i: nat) | Scanning(i: nat, j: nat, a: nat) | Stopped

  datatype World = World(s: State, poller: Poller, spawned: seq<Spawned>)

  /** The poller's next request with the requests that fail at this moment, or anybody else's step. */
  datatype Move = Own(down: set<Request>, id: nat) | Other(step: Step)

  ghost predicate PollerInv(plan: Plan, w: World)
  {
    match w.poller
    case Scanning(i, j, a) =>
      && i < |plan.pending| && j <= plan.n && a in w.s.actors && w.s.actors[a].task == plan.pending[i]
      && w.s.actors[a].stage == Claimed(j, plan.n) && w.s.actors[a].daemon == plan.daemon
    case _ => true
  }

  /** Not a step of the claim in hand; a crash of the daemon ends the round. */
  predicate Foreign(step: Step, plan: Plan, poller: Poller)
  {
    match step
    case TrySlot(b, _) => !(poller.Scanning? && b == poller.a)
    case GiveUp(b, _) => !(poller.Scanning? && b == poller.a)
    case Crash(daemon) => daemon != plan.daemon
    case _ => true
  }

  predicate CanMove(c: Config, plan: Plan, w: World, move: Move)
  {
    match move
    case Own(_, id) => !w.poller.Stopped? && id !in w.s.actors
    case Other(step) => Enabled(c, w.s, step) && Foreign(step, plan, w.poller)
  }

  function Created(s: State, down: set<Request>, key: string, run: string): State
  {
    s.(kv := AfterCreate(s.kv, down, s.now, key, run))
  }

  /** The loop of the daemon, one request further. */
  function OwnMove(plan: Plan, w: World, down: set<Request>, id: nat): World
  {
    match w.poller
    case Stopped => w
    case AtTask(i) =>
      if i >= |plan.pending| || !plan.admit(i) then w.(poller := Stopped)
      else if plan.pending[i] == "" then w.(poller := AtTask(i + 1))
      else
        var task, s := plan.pending[i], w.s;
        var s1 := Created(s, down, LeaseKey(task), task);
        if CanTake(s.kv, down, LeaseKey(task)) then
          var x := Actor(plan.daemon, task, Claimed(0, plan.n), false, s.now, 0, s.now, 0);
          World(s1.(actors := s.actors[id := x]), Scanning(i, 0, id), w.spawned)
        else World(s1, AtTask(i + 1), w.spawned)
    case Scanning(i, j, a) =>
      if i >= |plan.pending| || a !in w.s.actors then w
      else
        var task, s, x := plan.pending[i], w.s, w.s.actors[a];
        if j < plan.n then
          var s1 := Created(s, down, SlotKey(j), task);
          if CanTake(s.kv, down, SlotKey(j)) then
            World(s1.(actors := s.actors[a := x.(stage := Live(j), slotBeat := s.now, slotFails := 0)]), AtTask(i + 1),
                  w.spawned + [Spawned(task, j)])
          else
            World(s1.(actors := s.actors[a := x.(stage := Claimed(j + 1, plan.n))]), Scanning(i, j + 1, a), w.spawned)
        else
          World(State(s.now, Purge(s.kv, LeaseKey(task), PurgeOf(LeaseKey(task)) !in down), s.actors - {a}), Stopped,
                w.spawned)
  }

  function Next(c: Config, plan: Plan, w: World, move: Move): World
    requires CanMove(c, plan, w, move)
  {
    match move
    case Own(down, id) => OwnMove(plan, w, down, id)
    case Other(step) => w.(s := Apply(c, w.s, step))
  }

  predicate Allowed(c: Config, plan: Plan, w: World, moves: seq<Move>)
    decreases |moves|
  {
    moves == [] || (CanMove(c, plan, w, moves[0]) && Allowed(c, plan, Next(c, plan, w, moves[0]), moves[1..]))
  }

  function After(c: Config, plan: Plan, w: World, moves: seq<Move>): World
    requires Allowed(c, plan, w, moves)
    decreases |moves|
  {
    if moves == [] then w else After(c, plan, Next(c, plan, w, moves[0]), moves[1..])
  }

  // ------------------------------------------------------------------ every interleaving is a run of the protocol

  /** The protocol step a request of the poller is, if it is one. */
  function StepOf(plan: Plan, w: World, down: set<Request>, id: nat): Option<Step>
  {
    match w.poller
    case Stopped => None
    case AtTask(i) =>
      if i >= |plan.pending| || !plan.admit(i) || plan.pending[i] == "" then None
      else Some(Claim(id, plan.daemon, plan.pending[i], plan.n, ReplyOf(w.s.kv, down, LeaseKey(plan.pending[i]))))
    case Scanning(i, j, a) =>
      if j < plan.n then Some(TrySlot(a, ReplyOf(w.s.kv, down, SlotKey(j))))
      else if i < |plan.pending| then Some(GiveUp(a, PurgeOf(LeaseKey(plan.pending[i])) !in down))
      else None
  }

  lemma OwnIsProtocolStep(c: Config, plan: Plan, w: World, down: set<Request>, id: nat)
    requires plan.Fits(c) && PollerInv(plan, w) && id !in w.s.actors
    ensures PollerInv(plan, OwnMove(plan, w, down, id))
    ensures match StepOf(plan, w, down, id)
            case None => OwnMove(plan, w, down, id).s == w.s
            case Some(step) => Enabled(c, w.s, step) && Apply(c, w.s, step) == OwnMove(plan, w, down, id).s
  {
  }

  lemma OtherKeepsPoller(c: Config, plan: Plan, w: World, step: Step)
    requires PollerInv(plan, w) && Enabled(c, w.s, step) && Foreign(step, plan, w.poller)
    ensures PollerInv(plan, w.(s := Apply(c, w.s, step)))
  {
  }

  /** A round among others: whatever requests fail and whatever others do between them, the state is that of a run of
      the protocol. */
  lemma {:induction false} InterleavedIsProtocolRun(c: Config, plan: Plan, w: World, moves: seq<Move>)
    returns (steps: seq<Step>)
    requires plan.Fits(c) && PollerInv(plan, w) && Allowed(c, plan, w, moves)
    ensures Valid(c, w.s, steps) && Run(c, w.s, steps) == After(c, plan, w, moves).s
    ensures PollerInv(plan, After(c, plan, w, moves))
    decreases |moves|
  {
    if moves == [] {
      steps := [];
    } else {
      var w1 := Next(c, plan, w, moves[0]);
      var first: Option<Step>;
      match moves[0] {
        case Own(down, id) =>
          OwnIsProtocolStep(c, plan, w, down, id);
          first := StepOf(plan, w, down, id);
        case Other(step) =>
          OtherKeepsPoller(c, plan, w, step);
          first := Some(step);
      }
      steps := InterleavedIsProtocolRun(c, plan, w1, moves[1..]);
      if first.Some? {
        RunCons(c, w.s, first.value, steps);
        steps := [first.value] + steps;
      }
    }
  }

  /** So every state on the way is safe. */
  lemma InterleavedIsSafe(c: Config, plan: Plan, w: World, moves: seq<Move>)
    requires c.RenewsInTime() && Inv(c, w.s) && plan.Fits(c) && PollerInv(plan, w) && Allowed(c, plan, w, moves)
    ensures Inv(c, After(c, plan, w, moves).s) && Safe(c, After(c, plan, w, moves).s)
  {
    var steps := InterleavedIsProtocolRun(c, plan, w, moves);
    RunKeeps(c, w.s, steps);
    InvIsSafe(c, Run(c, w.s, steps));
  }

  /** Whatever the round spawns is a live run with its task's lease and its slot to itself. */
  lemma SpawnedIsAlone(c: Config, plan: Plan, w: World, moves: seq<Move>, down: set<Request>, id: nat)
    requires c.RenewsInTime() && Inv(c, w.s) && plan.Fits(c) && PollerInv(plan, w) && Allowed(c, plan, w, moves)
    requires CanMove(c, plan, After(c, plan, w, moves), Own(down, id))
    ensures var w1 := After(c, plan, w, moves); var w2 := OwnMove(plan, w1, down, id);
            w2.spawned != w1.spawned ==>
              && w1.poller.Scanning? && w2.s.LiveAt(w1.poller.a)
              && w2.spawned ==
                   w1.spawned + [Spawned(w2.s.actors[w1.poller.a].task, w2.s.actors[w1.poller.a].stage.slot)]
              && forall b :: w2.s.LiveAt(b) && b != w1.poller.a ==>
                   && w2.s.actors[b].Lease() != w2.s.actors[w1.poller.a].Lease()
                   && w2.s.actors[b].Slot() != w2.s.actors[w1.poller.a].Slot()
  {
    var w1 := After(c, plan, w, moves);
    InterleavedIsSafe(c, plan, w, moves);
    var steps := InterleavedIsProtocolRun(c, plan, w, moves);
    OwnIsSafe(c, plan, w1, down, id);
  }

  lemma OwnIsSafe(c: Config, plan: Plan, w: World, down: set<Request>, id: nat)
    requires c.RenewsInTime() && Inv(c, w.s) && plan.Fits(c) && PollerInv(plan, w) && id !in w.s.actors
    ensures Safe(c, OwnMove(plan, w, down, id).s)
  {
    OwnIsProtocolStep(c, plan, w, down, id);
    var step := StepOf(plan, w, down, id);
    if step.Some? { StepKeeps(c, w.s, step.value); }
    InvIsSafe(c, OwnMove(plan, w, down, id).s);
  }

  // ------------------------------------------------------------------ alone it is the poll loop

  /** `moves` take `w` to `e`, all of them the poller's own and with the same failing requests. */
  ghost predicate Alone(c: Config, plan: Plan, down: set<Request>, w: World, moves: seq<Move>, e: World)
  {
    Allowed(c, plan, w, moves) && After(c, plan, w, moves) == e && forall m :: m in moves ==> m.Own? && m.down == down
  }

  lemma AloneCons(c: Config, plan: Plan, down: set<Request>, w: World, id: nat, w1: World, rest: seq<Move>, e: World)
    requires CanMove(c, plan, w, Own(down, id)) && w1 == OwnMove(plan, w, down, id) && Alone(c, plan, down, w1, rest, e)
    ensures Alone(c, plan, down, w, [Own(down, id)] + rest, e)
  {
    assert ([Own(down, id)] + rest)[1..] == rest;
  }

  lemma AloneTail(c: Config, plan: Plan, down: set<Request>, w: World, xs: seq<Move>, e: World)
    requires Alone(c, plan, down, w, xs, e) && xs != []
    ensures xs[0].Own? && xs[0].down == down && CanMove(c, plan, w, xs[0])
    ensures Alone(c, plan, down, Next(c, plan, w, xs[0]), xs[1..], e)
  {
    assert xs[0] in xs;
  }

  lemma {:induction false} AloneConcat(c: Config, plan: Plan, down: set<Request>, w: World, xs: seq<Move>, w1: World,
                                       ys: seq<Move>, e: World)
    requires Alone(c, plan, down, w, xs, w1) && Alone(c, plan, down, w1, ys, e)
    ensures Alone(c, plan, down, w, xs + ys, e)
    decreases |xs|
  {
    if xs == [] {
      assert xs + ys == ys;
    } else {
      AloneTail(c, plan, down, w, xs, w1);
      var next := Next(c, plan, w, xs[0]);
      AloneConcat(c, plan, down, next, xs[1..], w1, ys, e);
      AloneCons(c, plan, down, w, xs[0].id, next, xs[1..] + ys, e);
      assert [xs[0]] + (xs[1..] + ys) == xs + ys;
    }
  }

  /** The scan for a slot, from the bucket `kv` on. */
  lemma {:induction false} ScanAlone(c: Config, plan: Plan, down: set<Request>, w: World, kv: Bucket)
    returns (moves: seq<Move>, e: World)
    requires PollerInv(plan, w) && w.poller.Scanning?
    requires w.s.kv == SlotsCreated(kv, down, w.s.now, plan.pending[w.poller.i], w.poller.j)
    ensures var p := w.poller; var task := plan.pending[p.i];
            && Alone(c, plan, down, w, moves, e) && e.s.now == w.s.now
            && match FreeSlot(kv, down, p.j, plan.n)
               case Some(slot) =>
                 && e.poller == AtTask(p.i + 1) && e.spawned == w.spawned + [Spawned(task, slot)]
                 && e.s.kv == SlotsCreated(kv, down, w.s.now, task, slot + 1)
               case None =>
                 && e.poller == Stopped && e.spawned == w.spawned
                 && e.s.kv == Purge(SlotsCreated(kv, down, w.s.now, task, plan.n), LeaseKey(task),
                                    PurgeOf(LeaseKey(task)) !in down)
    decreases plan.n - w.poller.j
  {
    var id := FreshId(w.s.actors);
    var w1, task, n := OwnMove(plan, w, down, id), plan.pending[w.poller.i], plan.n;
    ScanMove(plan, w, down, id, kv, w1, task);
    if w1.poller.Scanning? {
      var rest;
      rest, e := ScanAlone(c, plan, down, w1, kv);
      AloneCons(c, plan, down, w, id, w1, rest, e);
      moves := [Own(down, id)] + rest;
    } else {
      e := w1;
      AloneCons(c, plan, down, w, id, w1, [], e);
      moves := [Own(down, id)] + [];
    }
  }

  /** One slot of the scan. */
  lemma ScanMove(plan: Plan, w: World, down: set<Request>, id: nat, kv: Bucket, w1: World, task: string)
    requires PollerInv(plan, w) && w.poller.Scanning? && w1 == OwnMove(plan, w, down, id)
    requires task == plan.pending[w.poller.i]
    requires w.s.kv == SlotsCreated(kv, down, w.s.now, task, w.poller.j)
    ensures PollerInv(plan, w1) && w1.s.now == w.s.now
    ensures var Scanning(i, j, a) := w.poller;
            if j >= plan.n then
              && w1.poller == Stopped && w1.spawned == w.spawned
              && w1.s.kv == Purge(w.s.kv, LeaseKey(task), PurgeOf(LeaseKey(task)) !in down)
            else
              && w1.s.kv == SlotsCreated(kv, down, w.s.now, task, j + 1)
              && if CanTake(kv, down, SlotKey(j)) then
                   w1.poller == AtTask(i + 1) && w1.spawned == w.spawned + [Spawned(task, j)]
                 else w1.poller == Scanning(i, j + 1, a) && w1.spawned == w.spawned
  {
    if w.poller.j < plan.n { SlotsCreatedAt(kv, down, w.s.now, task, w.poller.j, w.poller.j); }
  }

  /** Undisturbed, the requests of a round add up to the poll loop. */
  lemma {:induction false} AloneIsPoll(c: Config, plan: Plan, down: set<Request>, w: World, slots: nat)
    returns (moves: seq<Move>, e: World)
    requires plan.n == AtLeastOne(slots) && w.poller.AtTask? && w.poller.i <= |plan.pending|
    ensures Alone(c, plan, down, w, moves, e) && e.poller == Stopped && e.s.now == w.s.now
    ensures var r := Poll(w.s.kv, down, w.s.now, plan.pending[w.poller.i..], plan.admit, slots, w.poller.i);
            e.s.kv == r.1 && e.spawned == w.spawned + r.0
    decreases |plan.pending| - w.poller.i
  {
    var i := w.poller.i;
    var id := FreshId(w.s.actors);
    var w1, tasks := OwnMove(plan, w, down, id), plan.pending[i..];
    var rest;
    if w1.poller.Stopped? {
      rest, e := [], w1;
      assert w.spawned + [] == w.spawned;
    } else {
      assert tasks[0] == plan.pending[i] && tasks[1..] == plan.pending[i + 1..];
      if w1.poller.AtTask? {
        PollSkips(w.s.kv, down, w.s.now, tasks, plan.admit, slots, i);
        rest, e := AloneIsPoll(c, plan, down, w1, slots);
      } else {
        var scan, w2 := ScanAlone(c, plan, down, w1, w1.s.kv);
        if w2.poller.Stopped? {
          PollRejects(w.s.kv, down, w.s.now, tasks, plan.admit, slots, i);
          rest, e := scan, w2;
          assert w.spawned + [] == w.spawned;
        } else {
          var more;
          more, e := AloneIsPoll(c, plan, down, w2, slots);
          AloneConcat(c, plan, down, w1, scan, w2, more, e);
          rest := scan + more;
          var slot := FreeSlot(w1.s.kv, down, 0, plan.n).value;
          var later := Poll(w2.s.kv, down, w.s.now, tasks[1..], plan.admit, slots, i + 1);
          PollSpawns(w.s.kv, down, w.s.now, tasks, plan.admit, slots, i, slot, later);
          SpawnedMore(w.spawned, Spawned(tasks[0], slot), later.0);
        }
      }
    }
    AloneCons(c, plan, down, w, id, w1, rest, e);
    moves := [Own(down, id)] + rest;
  }

  lemma SpawnedMore(xs: seq<Spawned>, x: Spawned, ys: seq<Spawned>)
    ensures xs + [x] + ys == xs + ([x] + ys)
  {
  }

  lemma PollSkips(kv: Bucket, down: set<Request>, clock: nat, tasks: seq<string>, admit: nat -> bool, slots: nat,
                  i: nat)
    requires tasks != [] && admit(i) && (tasks[0] == "" || !CanTake(kv, down, LeaseKey(tasks[0])))
    ensures var kv' := if tasks[0] == "" then kv else AfterCreate(kv, down, clock, LeaseKey(tasks[0]), tasks[0]);
            Poll(kv, down, clock, tasks, admit, slots, i) == Poll(kv', down, clock, tasks[1..], admit, slots, i + 1)
  {
  }

  lemma PollRejects(kv: Bucket, down: set<Request>, clock: nat, tasks: seq<string>, admit: nat -> bool, slots: nat,
                    i: nat)
    requires tasks != [] && admit(i) && tasks[0] != "" && CanTake(kv, down, LeaseKey(tasks[0]))
    requires FreeSlot(AfterCreate(kv, down, clock, LeaseKey(tasks[0]), tasks[0]), down, 0, AtLeastOne(slots)).None?
    ensures var task, n := tasks[0], AtLeastOne(slots);
            var claimed := AfterCreate(kv, down, clock, LeaseKey(task), task);
            Poll(kv, down, clock, tasks, admit, slots, i) ==
              ([], Purge(SlotsCreated(claimed, down, clock, task, n), LeaseKey(task), PurgeOf(LeaseKey(task)) !in down))
  {
  }
}
