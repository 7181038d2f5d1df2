/** Building and starting together (multichase/multichase.c, thread_start and main): the workers of
    the startup barrier build with the program of single accesses on the shared memory, and arrive
    at the barrier when the program has come to its end. */
module Launch {
  import opened Wrappers
  import opened Memory
  import opened Accesses
  import opened Builder
  import opened Permutations
  import opened Layout
  import opened Chase
  import opened ThreadStart
  import opened Building
  import Interleaving
  import Startup

  /** What each thread has to build, the memory it starts with, and whether the chases are branches. */
  datatype Setup = Setup(starts: seq<Local>, memory: Memory, branch: bool) {
    function World(): Interleaving.World<Local> { Interleaving.World(starts, memory) }
  }

  /** The barrier, whose own counters stay at zero, and the threads at work on the shared memory.
      accesses is history: the threads in the order in which they have accessed the memory. */
  datatype State = State(barrier: Startup.State, world: Interleaving.World<Local>, accesses: seq<nat>)

  function Uncounted(e: Setup): (c: Startup.Config)
    ensures |c.work| == |e.starts|
  {
    Startup.Config(seq(|e.starts|, _ => 0), e.branch)
  }

  predicate Shaped(e: Setup, s: State) {
    |s.barrier.workers| == |s.world.locals| == |e.starts|
  }

  /** The action is the turn of a worker that builds. */
  predicate BuildTurn(b: Startup.State, a: Startup.Action) {
    a.Move? && a.thread.Worker? && a.thread.index < |b.workers| && b.workers[a.thread.index].Building?
  }

  /** The next access of a worker that builds; at the end of its program it goes to the barrier. An
      access to an executable arena is a fault. */
  function BuildStep(s: State, i: nat): State
    requires i < |s.barrier.workers| == |s.world.locals|
  {
    if BUILD.next(s.world.locals[i]).Halt? then s.(barrier := Startup.At(s.barrier, i, Startup.Locking))
    else State(s.barrier.(faults := s.barrier.faults + if s.barrier.executable then 1 else 0),
               Interleaving.Step(BUILD, s.world, i), s.accesses + [i])
  }

  function Act(e: Setup, s: State, a: Startup.Action): (r: Option<State>)
    requires Shaped(e, s)
    ensures r.Some? ==> Shaped(e, r.value)
  {
    if BuildTurn(s.barrier, a) then Some(BuildStep(s, a.thread.index))
    else
      match Startup.Act(Uncounted(e), s.barrier, a)
      case Some(b) => Some(s.(barrier := b))
      case None => None
  }

  /** The state after a run under a schedule; an action that is not possible changes nothing. */
  function Run(e: Setup, schedule: seq<Startup.Action>): (s: State)
    ensures Shaped(e, s)
  {
    if schedule == [] then State(Startup.Start(Uncounted(e)), e.World(), [])
    else
      var s := Run(e, schedule[..|schedule| - 1]);
      match Act(e, s, schedule[|schedule| - 1]) case Some(s') => s' case None => s
  }

  // ----- the barrier with counters

  /** The barrier of the module Startup: a worker that builds knows how many accesses are left. */
  function Counted(b: Startup.State, left: seq<nat>): (r: Startup.State)
    requires |left| == |b.workers|
    ensures |r.workers| == |b.workers|
    ensures forall i | 0 <= i < |b.workers| ::
              r.workers[i] == if b.workers[i].Building? then Startup.Building(left[i]) else b.workers[i]
  {
    b.(workers := seq(|left|, i requires 0 <= i < |left| =>
                        if b.workers[i].Building? then Startup.Building(left[i]) else b.workers[i]))
  }

  /** Apart from building, the counters do not matter, except that a new worker has all its work ahead. */
  lemma SameAct(c: Startup.Config, c0: Startup.Config, b: Startup.State, left: seq<nat>, a: Startup.Action)
    requires |b.workers| == |left| == |c.work| == |c0.work| && c.branch == c0.branch && !BuildTurn(b, a)
    requires b.main.MainSpawning? && b.main.created < |left| ==> left[b.main.created] == c.work[b.main.created]
    ensures match Startup.Act(c0, b, a)
            case Some(b') => Startup.Act(c, Counted(b, left), a) == Some(Counted(b', left))
            case None => Startup.Act(c, Counted(b, left), a).None?
  {
    match a
    case Move(Main) =>
      if b.main.MainSpawning? && b.main.created < |left| {
        SameSpawn(c, c0, b, left);
      } else {
        SameMain(c, c0, b, left);
      }
    case Move(Worker(i)) =>
      if i < |b.workers| {
        SameWorker(c, c0, b, left, i);
      }
    case Spurious(i) =>
      if i < |b.workers| {
        CountedAt(b, left, i, Startup.Woken);
      }
    case SpuriousMain =>
      CountedRest(b, left, b.(main := Startup.MainWoken));
  }

  lemma SameSpawn(c: Startup.Config, c0: Startup.Config, b: Startup.State, left: seq<nat>)
    requires |b.workers| == |left| == |c.work| == |c0.work|
    requires b.main.MainSpawning? && b.main.created < |left| && left[b.main.created] == c.work[b.main.created]
    ensures Startup.MainStep(c, Counted(b, left)) == Some(Counted(Startup.MainStep(c0, b).value, left))
  {
    var k := b.main.created;
    var b', r := Startup.MainStep(c0, b).value, Startup.MainStep(c, Counted(b, left)).value;
    assert r.workers == Counted(b', left).workers;
  }

  lemma SameMain(c: Startup.Config, c0: Startup.Config, b: Startup.State, left: seq<nat>)
    requires |b.workers| == |left| == |c.work| == |c0.work| && !(b.main.MainSpawning? && b.main.created < |left|)
    ensures match Startup.MainStep(c0, b)
            case Some(b') => Startup.MainStep(c, Counted(b, left)) == Some(Counted(b', left))
            case None => Startup.MainStep(c, Counted(b, left)).None?
  {
    if Startup.MainStep(c0, b).Some? {
      CountedRest(b, left, Startup.MainStep(c0, b).value);
    }
  }

  /** The workers are the same, whatever else changes. */
  lemma CountedRest(b: Startup.State, left: seq<nat>, b': Startup.State)
    requires |b.workers| == |left| && b'.workers == b.workers
    ensures Counted(b', left).workers == Counted(b, left).workers
  {}

  lemma CountedAt(b: Startup.State, left: seq<nat>, i: nat, pc: Startup.WorkerPc)
    requires |b.workers| == |left| && i < |left| && !pc.Building?
    ensures Counted(Startup.At(b, i, pc), left) == Startup.At(Counted(b, left), i, pc)
  {
    assert Counted(Startup.At(b, i, pc), left).workers == Startup.At(Counted(b, left), i, pc).workers;
  }

  lemma SameWorker(c: Startup.Config, c0: Startup.Config, b: Startup.State, left: seq<nat>, i: nat)
    requires |b.workers| == |left| == |c.work| == |c0.work| && c.branch == c0.branch && i < |left|
    requires !b.workers[i].Building?
    ensures match Startup.WorkerStep(c0, b, i)
            case Some(b') => Startup.WorkerStep(c, Counted(b, left), i) == Some(Counted(b', left))
            case None => Startup.WorkerStep(c, Counted(b, left), i).None?
  {
    if Startup.WorkerStep(c0, b, i).Some? {
      if b.workers[i].Deciding? && b.nrToStartup == 0 {
        CountedAt(b, left, i, Startup.Leaving);
        CountedBroadcast(Startup.At(b, i, Startup.Leaving), left);
      } else {
        var pc := Startup.WorkerStep(c0, b, i).value.workers[i];
        CountedAt(b, left, i, pc);
        CountedRest(Startup.At(b, i, pc), left, Startup.WorkerStep(c0, b, i).value);
      }
    }
  }

  lemma CountedBroadcast(b: Startup.State, left: seq<nat>)
    requires |b.workers| == |left|
    ensures Counted(Startup.Broadcast(b), left) == Startup.Broadcast(Counted(b, left))
  {
    assert Counted(Startup.Broadcast(b), left).workers == Startup.Broadcast(Counted(b, left)).workers;
  }

  // ----- the counters count the accesses that are left

  /** Alone, the thread halts after k accesses, and not before. */
  ghost predicate HaltsFirst(l: Local, m: Memory, k: nat) {
    BUILD.next(Alone(BUILD, l, m, k).0).Halt? && forall j: nat | j < k :: !BUILD.next(Alone(BUILD, l, m, j).0).Halt?
  }

  lemma {:induction false} FirstHalt(l: Local, m: Memory, k: nat) returns (first: nat)
    requires BUILD.next(Alone(BUILD, l, m, k).0).Halt?
    ensures HaltsFirst(l, m, first)
  {
    if j: nat :| j < k && BUILD.next(Alone(BUILD, l, m, j).0).Halt? {
      first := FirstHalt(l, m, j);
    } else {
      first := k;
    }
  }

  /** How many accesses each thread makes alone. */
  ghost predicate Exact(e: Setup, work: seq<nat>) {
    |work| == |e.starts| && forall i | 0 <= i < |work| :: HaltsFirst(e.starts[i], e.memory, work[i])
  }

  /** What is left of the work after these accesses. */
  function Left(work: seq<nat>, accesses: seq<nat>): (left: seq<nat>)
    ensures |left| == |work|
  {
    seq(|work|, i requires 0 <= i < |work| =>
          var n := Interleaving.Turns(accesses, i); if n <= work[i] then work[i] - n else 0)
  }

  /** A worker starts its program when it is created, and has come to its end when it goes to the barrier. */
  ghost predicate TurnsOk(s: State, work: seq<nat>, i: nat)
    requires i < |work| == |s.barrier.workers|
  {
    var pc, n := s.barrier.workers[i], Interleaving.Turns(s.accesses, i);
    if pc.Unborn? then n == 0 else if pc.Building? then n <= work[i] else n == work[i]
  }

  ghost predicate Tracks(e: Setup, work: seq<nat>, s: State) {
    Shaped(e, s) && |work| == |e.starts|
    && s.world == Interleaving.Run(BUILD, e.World(), s.accesses)
    && forall i | 0 <= i < |work| :: TurnsOk(s, work, i)
  }

  lemma OneMoreAccess(e: Setup, accesses: seq<nat>, i: nat)
    ensures Interleaving.Run(BUILD, e.World(), accesses + [i]) ==
            Interleaving.Step(BUILD, Interleaving.Run(BUILD, e.World(), accesses), i)
    ensures forall j: nat :: Interleaving.Turns(accesses + [i], j) ==
                             Interleaving.Turns(accesses, j) + if j == i then 1 else 0
  {
    assert (accesses + [i])[..|accesses|] == accesses;
  }

  /** The program of a worker is at its end exactly when no access is left. */
  lemma HaltedExactly(e: Setup, owned: seq<set<nat>>, work: seq<nat>, s: State, i: nat)
    requires Interleaving.AllObey(BUILD, owned, e.World()) && Exact(e, work) && Tracks(e, work, s) && i < |work|
    ensures BUILD.next(s.world.locals[i]).Halt? <==> Interleaving.Turns(s.accesses, i) == work[i]
  {
    assert TurnsOk(s, work, i);
    assert HaltsFirst(e.starts[i], e.memory, work[i]);
    Interleaving.EachAsIfAlone(BUILD, owned, e.World(), s.accesses, i);
  }

  lemma LeftStep(work: seq<nat>, accesses: seq<nat>, i: nat)
    requires i < |work| && Interleaving.Turns(accesses, i) < work[i]
    ensures var left := Left(work, accesses);
            0 < left[i] && Left(work, accesses + [i]) == left[i := left[i] - 1]
  {
    assert (accesses + [i])[..|accesses|] == accesses;
    assert Left(work, accesses + [i]) == Left(work, accesses)[i := Left(work, accesses)[i] - 1];
  }

  lemma CountDown(c: Startup.Config, b: Startup.State, left: seq<nat>, i: nat)
    requires |b.workers| == |left| && i < |left| && b.workers[i].Building? && 0 < left[i]
    ensures var b' := b.(faults := b.faults + if b.executable then 1 else 0);
            Startup.WorkerStep(c, Counted(b, left), i) == Some(Counted(b', left[i := left[i] - 1]))
  {
    var b', left' := b.(faults := b.faults + if b.executable then 1 else 0), left[i := left[i] - 1];
    assert Startup.WorkerStep(c, Counted(b, left), i).value.workers == Counted(b', left').workers;
  }

  /** One access fewer is left; at the end of the program the worker goes to the barrier. */
  lemma BuildCounts(e: Setup, work: seq<nat>, s: State, i: nat)
    requires Shaped(e, s) && i < |work| == |e.starts| && s.barrier.workers[i].Building? && TurnsOk(s, work, i)
    requires BUILD.next(s.world.locals[i]).Halt? <==> Interleaving.Turns(s.accesses, i) == work[i]
    ensures var c, s' := Startup.Config(work, e.branch), BuildStep(s, i);
            Startup.WorkerStep(c, Counted(s.barrier, Left(work, s.accesses)), i)
            == Some(Counted(s'.barrier, Left(work, s'.accesses)))
  {
    var left := Left(work, s.accesses);
    if Interleaving.Turns(s.accesses, i) == work[i] {
      CountedAt(s.barrier, left, i, Startup.Locking);
    } else {
      LeftStep(work, s.accesses, i);
      CountDown(Startup.Config(work, e.branch), s.barrier, left, i);
    }
  }

  lemma BuildTracks(e: Setup, work: seq<nat>, s: State, i: nat)
    requires Tracks(e, work, s) && i < |work| && s.barrier.workers[i].Building?
    requires BUILD.next(s.world.locals[i]).Halt? <==> Interleaving.Turns(s.accesses, i) == work[i]
    ensures Tracks(e, work, BuildStep(s, i))
  {
    var s' := BuildStep(s, i);
    OneMoreAccess(e, s.accesses, i);
    forall j | 0 <= j < |work|
      ensures TurnsOk(s', work, j)
    {
      assert TurnsOk(s, work, j) && TurnsOk(s, work, i);
    }
  }

  lemma ActTracks(e: Setup, owned: seq<set<nat>>, work: seq<nat>, s: State, a: Startup.Action)
    requires Interleaving.AllObey(BUILD, owned, e.World()) && Exact(e, work) && Tracks(e, work, s)
    requires Startup.LockOk(Counted(s.barrier, Left(work, s.accesses)))
    ensures var c, b := Startup.Config(work, e.branch), Counted(s.barrier, Left(work, s.accesses));
            match Act(e, s, a)
            case Some(s') =>
              Tracks(e, work, s') && Startup.Act(c, b, a) == Some(Counted(s'.barrier, Left(work, s'.accesses)))
            case None => Startup.Act(c, b, a).None?
  {
    if BuildTurn(s.barrier, a) {
      HaltedExactly(e, owned, work, s, a.thread.index);
      BuildCounts(e, work, s, a.thread.index);
      BuildTracks(e, work, s, a.thread.index);
    } else {
      NewWorkersFresh(work, s);
      SameAct(Startup.Config(work, e.branch), Uncounted(e), s.barrier, Left(work, s.accesses), a);
      if Act(e, s, a).Some? {
        RestTracks(e, work, s, a);
      }
    }
  }

  lemma NewWorkersFresh(work: seq<nat>, s: State)
    requires |work| == |s.barrier.workers| && Startup.LockOk(Counted(s.barrier, Left(work, s.accesses)))
    requires forall i | 0 <= i < |work| :: TurnsOk(s, work, i)
    ensures s.barrier.main.MainSpawning? ==>
              forall k | s.barrier.main.created <= k < |work| ::
                s.barrier.workers[k].Unborn? && Left(work, s.accesses)[k] == work[k]
  {
    if s.barrier.main.MainSpawning? {
      forall k | s.barrier.main.created <= k < |work|
        ensures s.barrier.workers[k].Unborn? && Left(work, s.accesses)[k] == work[k]
      {
        assert TurnsOk(s, work, k);
        assert Counted(s.barrier, Left(work, s.accesses)).workers[k].Unborn?;
      }
    }
  }

  /** Everything else makes no accesses. */
  lemma RestTracks(e: Setup, work: seq<nat>, s: State, a: Startup.Action)
    requires Tracks(e, work, s) && !BuildTurn(s.barrier, a) && Act(e, s, a).Some?
    requires s.barrier.main.MainSpawning? ==>
               forall k | s.barrier.main.created <= k < |work| :: s.barrier.workers[k].Unborn?
    ensures Tracks(e, work, Act(e, s, a).value)
  {
    var s' := Act(e, s, a).value;
    forall i | 0 <= i < |work|
      ensures TurnsOk(s', work, i)
    {
      assert TurnsOk(s, work, i);
    }
  }

  /** The run is a run of the barrier with counters, under the same schedule. */
  lemma {:induction false} RunTracks(e: Setup, owned: seq<set<nat>>, work: seq<nat>, schedule: seq<Startup.Action>)
    requires Interleaving.AllObey(BUILD, owned, e.World()) && Exact(e, work)
    ensures var c, s := Startup.Config(work, e.branch), Run(e, schedule);
            Tracks(e, work, s) && Startup.Run(c, schedule) == Counted(s.barrier, Left(work, s.accesses))
  {
    var c := Startup.Config(work, e.branch);
    if schedule == [] {
      assert Startup.Start(c).workers == Counted(Run(e, []).barrier, Left(work, [])).workers;
    } else {
      var n := |schedule| - 1;
      RunTracks(e, owned, work, schedule[..n]);
      Startup.MutualExclusion(c, schedule[..n]);
      ActTracks(e, owned, work, Run(e, schedule[..n]), schedule[n]);
    }
  }

  // ----- safety over all runs

  /** No woken thread takes the mutex back before everybody has arrived. */
  ghost predicate HarmlessReturns(e: Setup, schedule: seq<Startup.Action>) {
    forall k | 0 <= k < |schedule| :: Startup.Harmless(Run(e, schedule[..k]).barrier, schedule[k])
  }

  lemma SameReturns(e: Setup, owned: seq<set<nat>>, work: seq<nat>, schedule: seq<Startup.Action>)
    requires Interleaving.AllObey(BUILD, owned, e.World()) && Exact(e, work) && HarmlessReturns(e, schedule)
    ensures Startup.HarmlessReturns(Startup.Config(work, e.branch), schedule)
  {
    var c := Startup.Config(work, e.branch);
    forall k | 0 <= k < |schedule|
      ensures Startup.Harmless(Startup.Run(c, schedule[..k]), schedule[k])
    {
      RunTracks(e, owned, work, schedule[..k]);
      assert Startup.Harmless(Run(e, schedule[..k]).barrier, schedule[k]);
      SameHarm(Run(e, schedule[..k]).barrier, Left(work, Run(e, schedule[..k]).accesses), schedule[k]);
    }
  }

  lemma SameHarm(b: Startup.State, left: seq<nat>, a: Startup.Action)
    requires |b.workers| == |left|
    ensures Startup.Harmless(Counted(b, left), a) <==> Startup.Harmless(b, a)
    ensures Startup.Unfinished(Counted(b, left), a) <==> Startup.Unfinished(b, a)
  {}

  /** Whatever the schedule: when anybody is through the barrier, the programs of all threads have
      come to their end, and so they have before the arena becomes executable. */
  lemma BuiltBeforeStart(e: Setup, owned: seq<set<nat>>, work: seq<nat>, schedule: seq<Startup.Action>)
    requires Interleaving.AllObey(BUILD, owned, e.World()) && Exact(e, work) && HarmlessReturns(e, schedule)
    ensures var s := Run(e, schedule);
            s.barrier.faults == 0 && (s.barrier.executable ==> e.branch)
            && (Startup.SomeoneThrough(s.barrier) || s.barrier.executable ==> Interleaving.Complete(BUILD, s.world))
  {
    var c, s := Startup.Config(work, e.branch), Run(e, schedule);
    var b := Counted(s.barrier, Left(work, s.accesses));
    RunTracks(e, owned, work, schedule);
    SameReturns(e, owned, work, schedule);
    Startup.NoEarlyStart(c, schedule);
    Startup.FlipIsSafe(c, schedule);
    if Startup.SomeoneThrough(s.barrier) || s.barrier.executable {
      SameThrough(s.barrier, Left(work, s.accesses));
      forall i | 0 <= i < |work|
        ensures BUILD.next(s.world.locals[i]).Halt?
      {
        assert Startup.Built(b.workers[i]);
        assert TurnsOk(s, work, i);
        HaltedExactly(e, owned, work, s, i);
      }
    }
  }

  lemma SameThrough(b: Startup.State, left: seq<nat>)
    requires |b.workers| == |left|
    ensures Startup.SomeoneThrough(Counted(b, left)) <==> Startup.SomeoneThrough(b)
  {
    if i :| 0 <= i < |b.workers| && Startup.Through(b.workers[i]) {
      assert Startup.Through(Counted(b, left).workers[i]);
    }
  }

  // ----- progress

  /** A harmless step that a thread still has to make before everyone is through, or a wakeup. */
  ghost predicate Useful(e: Setup, s: State, a: Startup.Action)
    requires Shaped(e, s)
  {
    Act(e, s, a).Some? && Startup.Harmless(s.barrier, a) && Startup.Unfinished(s.barrier, a)
  }

  /** Every turn of the schedule goes to a thread that has something to do. */
  ghost predicate Busy(e: Setup, schedule: seq<Startup.Action>) {
    forall k | 0 <= k < |schedule| :: Useful(e, Run(e, schedule[..k]), schedule[k])
  }

  lemma SameUse(e: Setup, owned: seq<set<nat>>, work: seq<nat>, schedule: seq<Startup.Action>, a: Startup.Action)
    requires Interleaving.AllObey(BUILD, owned, e.World()) && Exact(e, work)
    ensures var c := Startup.Config(work, e.branch);
            Useful(e, Run(e, schedule), a) <==> Startup.Useful(c, Startup.Run(c, schedule), a)
  {
    var c, s := Startup.Config(work, e.branch), Run(e, schedule);
    RunTracks(e, owned, work, schedule);
    Startup.MutualExclusion(c, schedule);
    ActTracks(e, owned, work, s, a);
    SameHarm(s.barrier, Left(work, s.accesses), a);
  }

  lemma SameBusy(e: Setup, owned: seq<set<nat>>, work: seq<nat>, schedule: seq<Startup.Action>)
    requires Interleaving.AllObey(BUILD, owned, e.World()) && Exact(e, work)
    ensures Busy(e, schedule) <==> Startup.Busy(Startup.Config(work, e.branch), schedule)
  {
    var c := Startup.Config(work, e.branch);
    forall k | 0 <= k < |schedule|
      ensures Useful(e, Run(e, schedule[..k]), schedule[k]) <==>
              Startup.Useful(c, Startup.Run(c, schedule[..k]), schedule[k])
    {
      SameUse(e, owned, work, schedule[..k], schedule[k]);
    }
  }

  /** Every schedule that keeps giving turns to threads that have something to do builds everything
      and lets everyone through after a bounded number of steps. */
  lemma EveryoneBuildsAndStarts(e: Setup, owned: seq<set<nat>>, work: seq<nat>, schedule: seq<Startup.Action>)
    requires Interleaving.AllObey(BUILD, owned, e.World()) && Exact(e, work) && Busy(e, schedule)
    ensures var c := Startup.Config(work, e.branch); |schedule| <= Startup.Rank(c, Startup.Start(c))
    ensures Startup.Started(Run(e, schedule).barrier) || exists a :: Busy(e, schedule + [a])
  {
    var c, s := Startup.Config(work, e.branch), Run(e, schedule);
    RunTracks(e, owned, work, schedule);
    SameBusy(e, owned, work, schedule);
    Startup.EveryoneStarts(c, schedule);
    if Startup.Started(Startup.Run(c, schedule)) {
      SameStarted(s.barrier, Left(work, s.accesses));
    } else {
      var a :| Startup.Busy(c, schedule + [a]);
      SameBusy(e, owned, work, schedule + [a]);
    }
  }

  lemma SameStarted(b: Startup.State, left: seq<nat>)
    requires |b.workers| == |left| && Startup.Started(Counted(b, left))
    ensures Startup.Started(b)
  {
    forall i | 0 <= i < |b.workers|
      ensures b.workers[i].Chasing?
    {
      assert Counted(b, left).workers[i].Chasing?;
    }
  }

  // ----- the chases of multichase

  /** Every thread, started with the first stage, comes to its end. */
  lemma ExactWork(owned: seq<set<nat>>, ends: seq<Local>, run: SerialRun, branch: bool) returns (work: seq<nat>)
    requires Interleaving.Sequential(BUILD, owned, run.starts, ends, run.stages)
    ensures Exact(Setup(run.starts, run.stages[0], branch), work)
  {
    work := [];
    while |work| < |run.starts|
      invariant |work| <= |run.starts|
      invariant forall i | 0 <= i < |work| :: HaltsFirst(run.starts[i], run.stages[0], work[i])
    {
      var k := Interleaving.AloneFromStart(BUILD, owned, run.starts, ends, run.stages, |work|);
      var first := FirstHalt(run.starts[|work|], run.stages[0], k);
      work := work + [first];
    }
  }

  /** What a run that builds and starts keeps: no access meets an executable arena and no branch runs
      in a writable one; when a thread chases or main samples, every chase of every thread is finished,
      and so it is when the arena is executable. */
  ghost predicate StartsSafely(args: ChaseArgs, kind: ChaseKind, q: nat, orders: seq<seq<nat>>, cycles: seq<nat>,
                               s: State)
    requires Ready(args) && 0 < args.View().NrElts() && |cycles| == |orders|
    reads args, args.arena
  {
    s.barrier.faults == 0 && (s.barrier.executable ==> kind.rewrite.ToBranches?)
    && (Startup.SomeoneThrough(s.barrier) || s.barrier.executable ==>
          AllDone(args, kind, s.world.memory, q, orders, cycles))
  }

  function SetupOf(kind: ChaseKind, run: SerialRun): Setup
    requires 0 < |run.stages|
  {
    Setup(run.starts, run.stages[0], kind.rewrite.ToBranches?)
  }

  lemma ThreadsObey(args: ChaseArgs, kind: ChaseKind, nrThreads: nat, q: nat, run: SerialRun) returns (work: seq<nat>)
    requires Configured(args, kind, nrThreads) && (kind.parallelism * nrThreads) * q <= args.nrMixerIndices
    requires SerialUpTo(args.View(), kind.objectSize, kind.parallelism, q, run, nrThreads)
    ensures Interleaving.AllObey(BUILD, run.owned, SetupOf(kind, run).World()) && Exact(SetupOf(kind, run), work)
  {
    assert (kind.parallelism * nrThreads) * q == nrThreads * (kind.parallelism * q);
    SerialIsSequential(args.View(), kind.objectSize, kind.parallelism, q, run, nrThreads);
    Interleaving.SequentialObeys(BUILD, run.owned, run.starts, Ends(nrThreads), run.stages);
    work := ExactWork(run.owned, Ends(nrThreads), run, kind.rewrite.ToBranches?);
  }

  /** All threads of multichase, in every run in which no thread returns too early from its wait. */
  lemma FinishedBeforeUse(args: ChaseArgs, kind: ChaseKind, nrThreads: nat, q: nat, run: SerialRun,
                          orders: seq<seq<nat>>, cycles: seq<nat>, schedule: seq<Startup.Action>)
    requires Configured(args, kind, nrThreads) && |orders| == |cycles| == kind.parallelism * nrThreads
    requires |cycles| * q <= args.nrMixerIndices
    requires SerialUpTo(args.View(), kind.objectSize, kind.parallelism, q, run, nrThreads)
    requires AllDone(args, kind, run.stages[nrThreads], q, orders, cycles)
    requires HarmlessReturns(SetupOf(kind, run), schedule)
    ensures StartsSafely(args, kind, q, orders, cycles, Run(SetupOf(kind, run), schedule))
  {
    var work := ThreadsObey(args, kind, nrThreads, q, run);
    RunTracks(SetupOf(kind, run), run.owned, work, schedule);
    BuiltBeforeStart(SetupOf(kind, run), run.owned, work, schedule);
    var enough := ConcurrentBuild(args, kind, nrThreads, q, run, orders, cycles);
  }

  /** The run is no longer than the bound, and it can go on until everyone has started. */
  ghost predicate ComesToStart(e: Setup, schedule: seq<Startup.Action>, bound: nat) {
    |schedule| <= bound && (Startup.Started(Run(e, schedule).barrier) || exists a :: Busy(e, schedule + [a]))
  }

  /** main, from the arguments to the sampling: if the sizes are accepted, then in every run in which
      no thread returns too early from its wait, all chases are finished when anybody chases or
      samples; and every run that gives no turn in vain comes to that. */
  method LaunchAll(kind: ChaseKind, totalMemory: nat, stride: nat, tlbLocality: nat, generator: Generator,
                   nrThreads: nat, long: bool, address: nat, mixerDraws: nat -> nat, draws: nat -> nat -> nat)
    returns (ok: bool, args: ChaseArgs, cycles: seq<nat>, ghost orders: seq<seq<nat>>, ghost q: nat, ghost e: Setup,
             ghost bound: nat)
    requires kind.Valid() && 0 < nrThreads && 0 < totalMemory
    requires 0 < address && address + (if totalMemory < stride then stride else totalMemory) < ADDRESS_LIMIT
    ensures ok <==> PTR_SIZE <= stride && nrThreads * kind.parallelism <= stride / kind.objectSize
    ensures ok ==> Configured(args, kind, nrThreads) && |cycles| == |orders| == kind.parallelism * nrThreads
    ensures ok ==> MainArgs(args, kind.objectSize, totalMemory, stride, tlbLocality, generator,
                            nrThreads * kind.parallelism, mixerDraws, address)
    ensures ok ==> q == if long then stride / kind.objectSize / (nrThreads * kind.parallelism) else 1
    ensures ok ==> AllDrawn(args.View(), generator, draws, orders, kind.parallelism, nrThreads, q)
    ensures ok ==> |e.starts| == nrThreads && forall i | 0 <= i < |e.memory.bytes| :: e.memory.bytes[i] == 0
    ensures ok ==> forall schedule | HarmlessReturns(e, schedule) ::
                     StartsSafely(args, kind, q, orders, cycles, Run(e, schedule))
    ensures ok ==> forall schedule | Busy(e, schedule) :: ComesToStart(e, schedule, bound)
  {
    ghost var run, enough;
    ok, args, cycles, orders, q, run, enough :=
      BuildAll(kind, totalMemory, stride, tlbLocality, generator, nrThreads, long, address, mixerDraws, draws);
    e, bound := Setup([], Memory(0, []), false), 0;
    if ok {
      e := SetupOf(kind, run);
      ghost var work := ThreadsObey(args, kind, nrThreads, q, run);
      bound := Startup.Rank(Startup.Config(work, e.branch), Startup.Start(Startup.Config(work, e.branch)));
      forall schedule | HarmlessReturns(e, schedule)
        ensures StartsSafely(args, kind, q, orders, cycles, Run(e, schedule))
      {
        FinishedBeforeUse(args, kind, nrThreads, q, run, orders, cycles, schedule);
      }
      forall schedule | Busy(e, schedule)
        ensures ComesToStart(e, schedule, bound)
      {
        EveryoneBuildsAndStarts(e, run.owned, work, schedule);
      }
    }
  }
}
