/** The startup barrier of multichase (multichase/multichase.c): every thread builds its chases,
    the last one to arrive makes the arena executable if the chase is made of branches, and wakes
    the others and main. One step is one action of one thread; which thread moves next is up to
    an arbitrary scheduler, and a wait may also end without a broadcast. */
module Startup {
  import opened Wrappers

  /** Where a worker is in thread_start. */
  datatype WorkerPc =
    | Unborn
    | Building(accessesLeft: nat)
    | Locking
    | Checking
    | Flipping
    | Arriving
    | Deciding
    | Sleeping
    | Woken
    | Leaving
    | Chasing

  /** Where main is, from the creation of the threads on. */
  datatype MainPc =
    | MainSpawning(created: nat)
    | MainLocking
    | MainDeciding
    | MainSleeping
    | MainWoken
    | MainLeaving
    | MainSampling

  datatype Thread = Main | Worker(index: nat)

  /** How many accesses each worker makes to build its chases, and whether these are branches. */
  datatype Config = Config(work: seq<nat>, branch: bool)

  /** The shared state. faults counts accesses of a builder to an executable arena and branches into one that
      is not executable; flips counts the calls of make_buffer_executable. */
  datatype State = State(
    workers: seq<WorkerPc>, main: MainPc,
    nrToStartup: int, holder: Option<Thread>,
    executable: bool, flips: nat, faults: nat)

  function Start(c: Config): State {
    State(seq(|c.work|, _ => Unborn), MainSpawning(0), |c.work|, None, false, 0, 0)
  }

  // ----- steps

  function WakeWorkers(ws: seq<WorkerPc>): (r: seq<WorkerPc>)
    ensures |r| == |ws|
    ensures forall j | 0 <= j < |ws| :: r[j] == if ws[j].Sleeping? then Woken else ws[j]
  {
    seq(|ws|, j requires 0 <= j < |ws| => if ws[j].Sleeping? then Woken else ws[j])
  }

  /** pthread_cond_broadcast */
  function Broadcast(s: State): State {
    s.(workers := WakeWorkers(s.workers), main := if s.main.MainSleeping? then MainWoken else s.main)
  }

  function At(s: State, i: nat, pc: WorkerPc): State
    requires i < |s.workers|
  {
    s.(workers := s.workers[i := pc])
  }

  /** The next action of worker i; None while it cannot move. */
  function WorkerStep(c: Config, s: State, i: nat): Option<State>
    requires i < |s.workers|
  {
    match s.workers[i]
    case Unborn => None
    case Building(k) =>
      if k == 0 then Some(At(s, i, Locking))
      else Some(At(s, i, Building(k - 1)).(faults := s.faults + if s.executable then 1 else 0))
    case Locking => if s.holder.None? then Some(At(s, i, Checking).(holder := Some(Worker(i)))) else None
    case Checking => Some(At(s, i, if s.nrToStartup == 1 && c.branch then Flipping else Arriving))
    case Flipping => Some(At(s, i, Arriving).(executable := true, flips := s.flips + 1))
    case Arriving => Some(At(s, i, Deciding).(nrToStartup := s.nrToStartup - 1))
    case Deciding =>
      if s.nrToStartup != 0 then Some(At(s, i, Sleeping).(holder := None))
      else Some(Broadcast(At(s, i, Leaving)))
    case Sleeping => None
    case Woken => if s.holder.None? then Some(At(s, i, Leaving).(holder := Some(Worker(i)))) else None
    case Leaving => Some(At(s, i, Chasing).(holder := None))
    case Chasing => Some(s.(faults := s.faults + if c.branch && !s.executable then 1 else 0))
  }

  /** The next action of main; None while it cannot move. */
  function MainStep(c: Config, s: State): Option<State>
    requires |s.workers| == |c.work|
  {
    match s.main
    case MainSpawning(k) =>
      if k < |c.work| then Some(At(s, k, Building(c.work[k])).(main := MainSpawning(k + 1)))
      else Some(s.(main := MainLocking))
    case MainLocking => if s.holder.None? then Some(s.(main := MainDeciding, holder := Some(Main))) else None
    case MainDeciding =>
      if s.nrToStartup != 0 then Some(s.(main := MainSleeping, holder := None))
      else Some(s.(main := MainLeaving))
    case MainSleeping => None
    case MainWoken => if s.holder.None? then Some(s.(main := MainLeaving, holder := Some(Main))) else None
    case MainLeaving => Some(s.(main := MainSampling, holder := None))
    case MainSampling => Some(s)
  }

  function Step(c: Config, s: State, t: Thread): (r: Option<State>)
    requires |s.workers| == |c.work|
    ensures r.Some? ==> |r.value.workers| == |c.work|
  {
    match t
    case Main => MainStep(c, s)
    case Worker(i) => if i < |s.workers| then WorkerStep(c, s, i) else None
  }

  /** What the scheduler may do: give a thread its turn, or let a wait return without a broadcast. */
  datatype Action = Move(thread: Thread) | Spurious(index: nat) | SpuriousMain

  function Act(c: Config, s: State, a: Action): (r: Option<State>)
    requires |s.workers| == |c.work|
    ensures r.Some? ==> |r.value.workers| == |c.work|
  {
    match a
    case Move(t) => Step(c, s, t)
    case Spurious(i) => if i < |s.workers| && s.workers[i].Sleeping? then Some(At(s, i, Woken)) else None
    case SpuriousMain => if s.main.MainSleeping? then Some(s.(main := MainWoken)) else None
  }

  /** The state after a run under a schedule; an action that is not possible changes nothing. */
  function Run(c: Config, schedule: seq<Action>): (s: State)
    ensures |s.workers| == |c.work|
  {
    if schedule == [] then Start(c)
    else
      var s := Run(c, schedule[..|schedule| - 1]);
      match Act(c, s, schedule[|schedule| - 1]) case Some(s') => s' case None => s
  }

  // ----- what holds in every state

  /** Still counted in nr_to_startup. */
  predicate Pending(pc: WorkerPc) {
    pc.Unborn? || pc.Building? || pc.Locking? || pc.Checking? || pc.Flipping? || pc.Arriving?
  }

  /** Has built its chases. */
  predicate Built(pc: WorkerPc) {
    !pc.Unborn? && !pc.Building?
  }

  /** Holds the mutex. */
  predicate Critical(pc: WorkerPc) {
    pc.Checking? || pc.Flipping? || pc.Arriving? || pc.Deciding? || pc.Leaving?
  }

  /** Is past the barrier: its wait is over and the mutex taken back. A thread that has only been
      woken is not. */
  predicate Through(pc: WorkerPc) {
    pc.Leaving? || pc.Chasing?
  }

  predicate MainThrough(pc: MainPc) {
    pc.MainLeaving? || pc.MainSampling?
  }

  function CountPending(ws: seq<WorkerPc>): (n: nat)
    ensures n <= |ws|
  {
    if ws == [] then 0
    else CountPending(ws[..|ws| - 1]) + if Pending(ws[|ws| - 1]) then 1 else 0
  }

  /** The last worker to arrive is about to wake everyone. */
  ghost predicate Waking(s: State) {
    s.holder.Some? && s.holder.value.Worker? && s.holder.value.index < |s.workers|
    && s.workers[s.holder.value.index].Deciding?
  }

  /** The last worker to arrive is about to count itself. */
  ghost predicate LastArriving(s: State) {
    s.nrToStartup == 1 && s.holder.Some? && s.holder.value.Worker? && s.holder.value.index < |s.workers|
    && s.workers[s.holder.value.index].Arriving?
  }

  ghost predicate WorkerOk(c: Config, s: State, i: nat)
    requires i < |s.workers|
  {
    var pc := s.workers[i];
    (Critical(pc) <==> s.holder == Some(Worker(i)))
    && (Through(pc) ==> s.nrToStartup == 0)
    && (pc.Sleeping? && s.nrToStartup == 0 ==> Waking(s))
    && (pc.Flipping? ==> c.branch && s.nrToStartup == 1 && !s.executable)
    && (pc.Arriving? && c.branch && s.nrToStartup == 1 ==> s.executable)
    && (pc.Unborn? <==> s.main.MainSpawning? && s.main.created <= i)
  }

  ghost predicate MainOk(c: Config, s: State) {
    (s.main.MainDeciding? || s.main.MainLeaving? <==> s.holder == Some(Main))
    && (MainThrough(s.main) ==> s.nrToStartup == 0)
    && (s.main.MainSleeping? && s.nrToStartup == 0 ==> Waking(s))
    && (s.main.MainSpawning? ==> s.main.created <= |c.work|)
  }

  /** The arena: flipped once, by the last worker, and never used wrongly. */
  ghost predicate ArenaOk(c: Config, s: State) {
    s.faults == 0 && s.flips == (if s.executable then 1 else 0)
    && (s.executable ==> c.branch && (s.nrToStartup == 0 || LastArriving(s)))
    && (c.branch && c.work != [] && s.nrToStartup == 0 ==> s.executable)
  }

  ghost predicate Invariant(c: Config, s: State) {
    |s.workers| == |c.work| && s.nrToStartup == CountPending(s.workers)
    && (s.holder.Some? && s.holder.value.Worker? ==> s.holder.value.index < |s.workers|)
    && MainOk(c, s) && ArenaOk(c, s)
    && forall i | 0 <= i < |s.workers| :: WorkerOk(c, s, i)
  }

  // ----- counting

  lemma {:induction false} CountUpdate(ws: seq<WorkerPc>, i: nat, pc: WorkerPc)
    requires i < |ws|
    ensures CountPending(ws[i := pc]) ==
            CountPending(ws) - (if Pending(ws[i]) then 1 else 0) + (if Pending(pc) then 1 else 0)
  {
    var n := |ws| - 1;
    if i == n {
      assert ws[i := pc][..n] == ws[..n];
    } else {
      CountUpdate(ws[..n], i, pc);
      assert ws[i := pc][..n] == ws[..n][i := pc];
    }
  }

  lemma {:induction false} CountSame(ws: seq<WorkerPc>, vs: seq<WorkerPc>)
    requires |ws| == |vs| && forall j | 0 <= j < |ws| :: Pending(ws[j]) == Pending(vs[j])
    ensures CountPending(ws) == CountPending(vs)
  {
    if ws != [] {
      CountSame(ws[..|ws| - 1], vs[..|ws| - 1]);
    }
  }

  lemma {:induction false} CountZero(ws: seq<WorkerPc>)
    ensures CountPending(ws) == 0 <==> forall j | 0 <= j < |ws| :: !Pending(ws[j])
    ensures CountPending(ws) == |ws| <==> forall j | 0 <= j < |ws| :: Pending(ws[j])
  {
    if ws != [] {
      CountZero(ws[..|ws| - 1]);
      assert forall j | 0 <= j < |ws| - 1 :: ws[..|ws| - 1][j] == ws[j];
    }
  }

  /** If one worker is missing, it is the only one that is still building. */
  lemma OnlyPending(ws: seq<WorkerPc>, i: nat)
    requires i < |ws| && Pending(ws[i]) && CountPending(ws) == 1
    ensures forall j | 0 <= j < |ws| && j != i :: !Pending(ws[j])
  {
    CountUpdate(ws, i, Chasing);
    var vs := ws[i := Chasing];
    CountZero(vs);
    forall j | 0 <= j < |ws| && j != i
      ensures !Pending(ws[j])
    {
      assert vs[j] == ws[j];
    }
  }

  // ----- every step keeps the invariant

  lemma StartHolds(c: Config)
    ensures Invariant(c, Start(c))
  {
    CountZero(Start(c).workers);
  }

  lemma KeptByBuild(c: Config, s: State, i: nat)
    requires Invariant(c, s) && i < |s.workers| && s.workers[i].Building?
    ensures Invariant(c, WorkerStep(c, s, i).value)
  {
    var s' := WorkerStep(c, s, i).value;
    CountUpdate(s.workers, i, s'.workers[i]);
    assert WorkerOk(c, s, i);
    NotExecutable(c, s, i);
    forall j | 0 <= j < |s.workers|
      ensures WorkerOk(c, s', j)
    {
      assert WorkerOk(c, s, j);
    }
  }

  /** While some worker builds, the arena is writable. */
  lemma NotExecutable(c: Config, s: State, i: nat)
    requires Invariant(c, s) && i < |s.workers| && !Built(s.workers[i])
    ensures !s.executable && s.nrToStartup != 0
  {
    CountZero(s.workers);
    if LastArriving(s) {
      OnlyPending(s.workers, s.holder.value.index);
    }
  }

  lemma KeptByLocking(c: Config, s: State, i: nat)
    requires Invariant(c, s) && i < |s.workers| && s.holder.None?
    requires s.workers[i].Locking? || (s.workers[i].Woken? && s.nrToStartup == 0)
    ensures Invariant(c, WorkerStep(c, s, i).value)
  {
    var s' := WorkerStep(c, s, i).value;
    CountUpdate(s.workers, i, s'.workers[i]);
    assert WorkerOk(c, s, i);
    forall j | 0 <= j < |s.workers|
      ensures WorkerOk(c, s', j)
    {
      assert WorkerOk(c, s, j);
    }
  }

  lemma KeptByArrival(c: Config, s: State, i: nat)
    requires Invariant(c, s) && i < |s.workers|
    requires s.workers[i].Checking? || s.workers[i].Flipping? || s.workers[i].Arriving?
    ensures Invariant(c, WorkerStep(c, s, i).value)
  {
    var s' := WorkerStep(c, s, i).value;
    CountUpdate(s.workers, i, s'.workers[i]);
    CountZero(s.workers);
    assert WorkerOk(c, s, i);
    forall j | 0 <= j < |s.workers|
      ensures WorkerOk(c, s', j)
    {
      assert WorkerOk(c, s, j);
    }
  }

  lemma KeptByWaiting(c: Config, s: State, i: nat)
    requires Invariant(c, s) && i < |s.workers| && s.workers[i].Deciding? && s.nrToStartup != 0
    ensures Invariant(c, WorkerStep(c, s, i).value)
  {
    var s' := WorkerStep(c, s, i).value;
    CountUpdate(s.workers, i, s'.workers[i]);
    assert WorkerOk(c, s, i);
    forall j | 0 <= j < |s.workers|
      ensures WorkerOk(c, s', j)
    {
      assert WorkerOk(c, s, j);
    }
  }

  lemma KeptByBroadcast(c: Config, s: State, i: nat)
    requires Invariant(c, s) && i < |s.workers| && s.workers[i].Deciding? && s.nrToStartup == 0
    ensures Invariant(c, WorkerStep(c, s, i).value)
  {
    var s' := WorkerStep(c, s, i).value;
    CountSame(s.workers, s'.workers);
    assert WorkerOk(c, s, i);
    forall j | 0 <= j < |s.workers|
      ensures WorkerOk(c, s', j)
    {
      assert WorkerOk(c, s, j);
    }
  }

  lemma KeptByLeaving(c: Config, s: State, i: nat)
    requires Invariant(c, s) && i < |s.workers| && (s.workers[i].Leaving? || s.workers[i].Chasing?)
    ensures Invariant(c, WorkerStep(c, s, i).value)
  {
    var s' := WorkerStep(c, s, i).value;
    CountUpdate(s.workers, i, Chasing);
    assert WorkerOk(c, s, i);
    forall j | 0 <= j < |s.workers|
      ensures WorkerOk(c, s', j)
    {
      assert WorkerOk(c, s, j);
    }
  }

  lemma KeptBySpawn(c: Config, s: State)
    requires Invariant(c, s) && s.main.MainSpawning? && s.main.created < |c.work|
    ensures Invariant(c, MainStep(c, s).value)
  {
    var s' := MainStep(c, s).value;
    var k := s.main.created;
    assert WorkerOk(c, s, k);
    CountUpdate(s.workers, k, s'.workers[k]);
    forall j | 0 <= j < |s.workers|
      ensures WorkerOk(c, s', j)
    {
      assert WorkerOk(c, s, j);
    }
  }

  lemma KeptByMain(c: Config, s: State)
    requires Invariant(c, s) && MainStep(c, s).Some? && (s.main.MainSpawning? ==> s.main.created == |c.work|)
    requires s.main.MainWoken? ==> s.nrToStartup == 0
    ensures Invariant(c, MainStep(c, s).value)
  {
    var s' := MainStep(c, s).value;
    forall j | 0 <= j < |s.workers|
      ensures WorkerOk(c, s', j)
    {
      assert WorkerOk(c, s, j);
    }
  }

  /** The action is the return of a woken thread from its wait: it takes the mutex back. */
  predicate Returns(s: State, a: Action) {
    s.holder.None?
    && match a
       case Move(Main) => s.main.MainWoken?
       case Move(Worker(i)) => i < |s.workers| && s.workers[i].Woken?
       case Spurious(_) => false
       case SpuriousMain => false
  }

  /** Nobody returns from its wait before everybody has arrived. */
  predicate Harmless(s: State, a: Action) {
    Returns(s, a) ==> s.nrToStartup == 0
  }

  lemma StepKeeps(c: Config, s: State, t: Thread)
    requires Invariant(c, s) && Step(c, s, t).Some? && Harmless(s, Move(t))
    ensures Invariant(c, Step(c, s, t).value)
  {
    match t
    case Main =>
      if s.main.MainSpawning? && s.main.created < |c.work| {
        KeptBySpawn(c, s);
      } else {
        KeptByMain(c, s);
      }
    case Worker(i) =>
      match s.workers[i]
      case Building(_) => KeptByBuild(c, s, i);
      case Locking => KeptByLocking(c, s, i);
      case Woken => KeptByLocking(c, s, i);
      case Checking => KeptByArrival(c, s, i);
      case Flipping => KeptByArrival(c, s, i);
      case Arriving => KeptByArrival(c, s, i);
      case Deciding =>
        if s.nrToStartup != 0 {
          KeptByWaiting(c, s, i);
        } else {
          KeptByBroadcast(c, s, i);
        }
      case Leaving => KeptByLeaving(c, s, i);
      case Chasing => KeptByLeaving(c, s, i);
  }

  /** A wakeup without a broadcast does no harm by itself. */
  lemma KeptByWakeup(c: Config, s: State, a: Action)
    requires Invariant(c, s) && !a.Move? && Act(c, s, a).Some?
    ensures Invariant(c, Act(c, s, a).value)
  {
    var s' := Act(c, s, a).value;
    if a.Spurious? {
      CountUpdate(s.workers, a.index, Woken);
    }
    forall j | 0 <= j < |s.workers|
      ensures WorkerOk(c, s', j)
    {
      assert WorkerOk(c, s, j);
    }
  }

  /** No woken thread takes the mutex back before everybody has arrived. */
  ghost predicate HarmlessReturns(c: Config, schedule: seq<Action>) {
    forall k | 0 <= k < |schedule| :: Harmless(Run(c, schedule[..k]), schedule[k])
  }

  lemma HarmlessBefore(c: Config, schedule: seq<Action>, n: nat)
    requires HarmlessReturns(c, schedule) && n <= |schedule|
    ensures HarmlessReturns(c, schedule[..n])
  {
    forall k | 0 <= k < n
      ensures Harmless(Run(c, schedule[..n][..k]), schedule[..n][k])
    {
      assert schedule[..n][..k] == schedule[..k];
    }
  }

  lemma {:induction false} RunHolds(c: Config, schedule: seq<Action>)
    requires HarmlessReturns(c, schedule)
    ensures Invariant(c, Run(c, schedule))
  {
    if schedule == [] {
      StartHolds(c);
    } else {
      var n := |schedule| - 1;
      HarmlessBefore(c, schedule, n);
      RunHolds(c, schedule[..n]);
      var s := Run(c, schedule[..n]);
      assert Harmless(s, schedule[n]);
      if Act(c, s, schedule[n]).Some? {
        match schedule[n]
        case Move(t) => StepKeeps(c, s, t);
        case Spurious(_) => KeptByWakeup(c, s, schedule[n]);
        case SpuriousMain => KeptByWakeup(c, s, schedule[n]);
      }
    }
  }

  // ----- the barrier holds exactly if all returns from a wait are harmless

  ghost predicate SomeoneThrough(s: State) {
    MainThrough(s.main) || exists i :: 0 <= i < |s.workers| && Through(s.workers[i])
  }

  /** Nobody is through before everybody has arrived. */
  ghost predicate BarrierHolds(s: State) {
    SomeoneThrough(s) ==> s.nrToStartup == 0
  }

  /** Throughout a run the barrier holds if and only if no woken thread takes the mutex back before
      everybody has arrived; when the threads are woken does not matter. */
  lemma BarrierHoldsExactly(c: Config, schedule: seq<Action>)
    ensures (forall k | 0 <= k <= |schedule| :: BarrierHolds(Run(c, schedule[..k]))) <==> HarmlessReturns(c, schedule)
  {
    if HarmlessReturns(c, schedule) {
      forall k | 0 <= k <= |schedule|
        ensures BarrierHolds(Run(c, schedule[..k]))
      {
        HarmlessBefore(c, schedule, k);
        NoEarlyStart(c, schedule[..k]);
      }
    }
    if forall k | 0 <= k <= |schedule| :: BarrierHolds(Run(c, schedule[..k])) {
      forall k | 0 <= k < |schedule|
        ensures Harmless(Run(c, schedule[..k]), schedule[k])
      {
        assert BarrierHolds(Run(c, schedule[..k + 1]));
        assert schedule[..k + 1][..k] == schedule[..k];
        ReturnLetsThrough(c, Run(c, schedule[..k]), schedule[k]);
      }
    }
  }

  /** A thread that returns from its wait is through, and its next turn lets it chase or sample,
      however many threads are still missing. */
  lemma ReturnLetsThrough(c: Config, s: State, a: Action)
    requires |s.workers| == |c.work|
    ensures Returns(s, a) ==>
              Act(c, s, a).Some?
              && var s' := Act(c, s, a).value;
                 (BarrierHolds(s') ==> s.nrToStartup == 0)
                 && Act(c, s', a).Some?
                 && var s'' := Act(c, s', a).value;
                    s''.nrToStartup == s.nrToStartup
                    && if a.thread.Main? then s''.main.MainSampling? else s''.workers[a.thread.index].Chasing?
  {
    if Returns(s, a) && a.thread.Worker? {
      assert Through(Act(c, s, a).value.workers[a.thread.index]);
    }
  }

  /** Every wakeup without a broadcast comes when everybody has arrived. */
  ghost predicate TimelyWakeups(c: Config, schedule: seq<Action>) {
    forall k | 0 <= k < |schedule| :: Timely(Run(c, schedule[..k]), schedule[k])
  }

  predicate Timely(s: State, a: Action) {
    a.Move? || s.nrToStartup == 0
  }

  /** Timely wakeups are harmless; so is a run without any. */
  lemma {:induction false} TimelyIsHarmless(c: Config, schedule: seq<Action>)
    requires TimelyWakeups(c, schedule)
    ensures HarmlessReturns(c, schedule) && WokenInTime(Run(c, schedule))
  {
    if schedule != [] {
      var n := |schedule| - 1;
      var before := schedule[..n];
      TimelyBefore(c, schedule, n);
      TimelyIsHarmless(c, before);
      RunHolds(c, before);
      TimelyLast(c, schedule);
      TimelyStep(c, Run(c, before), schedule[n]);
      HarmlessMore(c, schedule);
    }
  }

  lemma TimelyLast(c: Config, schedule: seq<Action>)
    requires TimelyWakeups(c, schedule) && 0 < |schedule|
    ensures Timely(Run(c, schedule[..|schedule| - 1]), schedule[|schedule| - 1])
  {}

  lemma TimelyBefore(c: Config, schedule: seq<Action>, n: nat)
    requires TimelyWakeups(c, schedule) && n <= |schedule|
    ensures TimelyWakeups(c, schedule[..n])
  {
    forall k | 0 <= k < n
      ensures Timely(Run(c, schedule[..n][..k]), schedule[..n][k])
    {
      assert schedule[..n][..k] == schedule[..k];
    }
  }

  lemma HarmlessMore(c: Config, schedule: seq<Action>)
    requires 0 < |schedule|
    requires var n := |schedule| - 1;
             HarmlessReturns(c, schedule[..n]) && Harmless(Run(c, schedule[..n]), schedule[n])
    ensures HarmlessReturns(c, schedule)
  {
    var n := |schedule| - 1;
    forall k | 0 <= k < |schedule|
      ensures Harmless(Run(c, schedule[..k]), schedule[k])
    {
      if k < n {
        assert schedule[..n][..k] == schedule[..k];
        assert Harmless(Run(c, schedule[..n][..k]), schedule[..n][k]);
      }
    }
  }

  ghost predicate WokenInTime(s: State) {
    s.nrToStartup != 0 ==> !s.main.MainWoken? && forall i | 0 <= i < |s.workers| :: !s.workers[i].Woken?
  }

  lemma TimelyStep(c: Config, s: State, a: Action)
    requires Invariant(c, s) && WokenInTime(s) && Timely(s, a)
    ensures Harmless(s, a) && (Act(c, s, a).Some? ==> WokenInTime(Act(c, s, a).value))
  {
    if a.Move? && a.thread.Worker? {
      CountZero(s.workers);
    }
  }

  // ----- safety over all runs

  /** Whatever the schedule: nobody chases, and main does not sample, before every worker has
      built its chases and has arrived. */
  lemma NoEarlyStart(c: Config, schedule: seq<Action>)
    requires HarmlessReturns(c, schedule)
    ensures var s := Run(c, schedule);
            BarrierHolds(s)
            && (s.nrToStartup == 0 ==> forall j | 0 <= j < |s.workers| :: Built(s.workers[j]) && !Pending(s.workers[j]))
  {
    var s := Run(c, schedule);
    RunHolds(c, schedule);
    if i :| 0 <= i < |s.workers| && Through(s.workers[i]) {
      assert WorkerOk(c, s, i);
    }
    CountZero(s.workers);
  }

  /** Whatever the schedule: once the last arrival has broadcast, nobody is left asleep. */
  lemma NoSleeperLeft(c: Config, schedule: seq<Action>)
    requires HarmlessReturns(c, schedule)
    ensures var s := Run(c, schedule);
            s.nrToStartup == 0 && (forall i | 0 <= i < |s.workers| :: !s.workers[i].Deciding?) ==>
              !s.main.MainSleeping? && forall j | 0 <= j < |s.workers| :: !s.workers[j].Sleeping?
  {
    var s := Run(c, schedule);
    RunHolds(c, schedule);
    if s.nrToStartup == 0 && forall i | 0 <= i < |s.workers| :: !s.workers[i].Deciding? {
      forall j | 0 <= j < |s.workers|
        ensures !s.workers[j].Sleeping?
      {
        assert WorkerOk(c, s, j);
      }
    }
  }

  /** Whatever the schedule: no access of a builder meets an executable arena and no branch runs in
      one that is not; the arena is flipped at most once, only for branches, and not before everything
      is built; and it has been flipped when everybody has arrived. */
  lemma FlipIsSafe(c: Config, schedule: seq<Action>)
    requires HarmlessReturns(c, schedule)
    ensures var s := Run(c, schedule);
            s.faults == 0 && s.flips <= 1 && (s.flips == 1 <==> s.executable)
            && (s.executable ==> c.branch && forall j | 0 <= j < |s.workers| :: Built(s.workers[j]))
            && (c.branch && c.work != [] && s.nrToStartup == 0 ==> s.flips == 1)
  {
    var s := Run(c, schedule);
    RunHolds(c, schedule);
    forall j | 0 <= j < |s.workers|
      ensures s.executable ==> Built(s.workers[j])
    {
      if !Built(s.workers[j]) {
        NotExecutable(c, s, j);
      }
    }
  }

  /** The mutex: held by exactly the thread that is inside the critical section. */
  ghost predicate LockOk(s: State) {
    (forall i | 0 <= i < |s.workers| :: Critical(s.workers[i]) <==> s.holder == Some(Worker(i)))
    && (s.main.MainDeciding? || s.main.MainLeaving? <==> s.holder == Some(Main))
    && (s.main.MainSpawning? ==> forall i | s.main.created <= i < |s.workers| :: s.workers[i].Unborn?)
  }

  lemma LockKept(c: Config, s: State, a: Action)
    requires |s.workers| == |c.work| && LockOk(s) && Act(c, s, a).Some?
    ensures LockOk(Act(c, s, a).value)
  {
    match a
    case Move(Worker(i)) => LockKeptByWorker(c, s, i);
    case Move(Main) =>
    case Spurious(_) =>
    case SpuriousMain =>
  }

  lemma LockKeptByWorker(c: Config, s: State, i: nat)
    requires LockOk(s) && i < |s.workers| && WorkerStep(c, s, i).Some?
    ensures LockOk(WorkerStep(c, s, i).value)
  {
    var s' := WorkerStep(c, s, i).value;
    forall j | 0 <= j < |s'.workers|
      ensures Critical(s'.workers[j]) <==> s'.holder == Some(Worker(j))
    {
      assert Critical(s.workers[j]) <==> s.holder == Some(Worker(j));
      assert Critical(s.workers[i]) <==> s.holder == Some(Worker(i));
    }
  }

  /** Whatever the schedule, and whatever wakeups there are: at most one thread is inside the
      critical section. */
  lemma {:induction false} MutualExclusion(c: Config, schedule: seq<Action>)
    ensures LockOk(Run(c, schedule))
  {
    if schedule != [] {
      var n := |schedule| - 1;
      MutualExclusion(c, schedule[..n]);
      if Act(c, Run(c, schedule[..n]), schedule[n]).Some? {
        LockKept(c, Run(c, schedule[..n]), schedule[n]);
      }
    }
  }

  /** A fault is an access of a builder to an executable arena, or a branch into one that is not. */
  lemma FaultsAre(c: Config, s: State, a: Action)
    requires |s.workers| == |c.work| && Act(c, s, a).Some?
    ensures var moving := if a.Move? && a.thread.Worker? then s.workers[a.thread.index] else Sleeping;
            Act(c, s, a).value.faults - s.faults ==
            if (moving.Building? && moving.accessesLeft != 0 && s.executable)
               || (moving.Chasing? && c.branch && !s.executable) then 1 else 0
  {}

  /** What early returns cannot break: the count of those that are missing, and that the arena is
      executable only when none is, or the last one is about to count itself. */
  ghost predicate WritersOk(c: Config, s: State) {
    |s.workers| == |c.work| && s.nrToStartup == CountPending(s.workers)
    && (s.executable ==> s.nrToStartup == 0 || LastArriving(s))
    && forall i | 0 <= i < |s.workers| && s.workers[i].Flipping? :: s.nrToStartup == 1
  }

  lemma WritersKeptByWorker(c: Config, s: State, i: nat)
    requires WritersOk(c, s) && LockOk(s) && i < |s.workers| && WorkerStep(c, s, i).Some?
    requires !(s.workers[i].Deciding? && s.nrToStartup == 0)
    ensures WritersOk(c, WorkerStep(c, s, i).value)
  {
    var s' := WorkerStep(c, s, i).value;
    CountUpdate(s.workers, i, s'.workers[i]);
    CountZero(s.workers);
    assert Critical(s.workers[i]) <==> s.holder == Some(Worker(i));
    forall j | 0 <= j < |s'.workers| && s'.workers[j].Flipping?
      ensures s'.nrToStartup == 1
    {
      assert Critical(s.workers[j]) <==> s.holder == Some(Worker(j));
    }
  }

  lemma WritersKeptByBroadcast(c: Config, s: State, i: nat)
    requires WritersOk(c, s) && i < |s.workers| && s.workers[i].Deciding? && s.nrToStartup == 0
    ensures WritersOk(c, WorkerStep(c, s, i).value)
  {
    CountSame(s.workers, WorkerStep(c, s, i).value.workers);
  }

  lemma WritersKeptByMain(c: Config, s: State)
    requires WritersOk(c, s) && LockOk(s) && MainStep(c, s).Some?
    ensures WritersOk(c, MainStep(c, s).value)
  {
    if s.main.MainSpawning? && s.main.created < |c.work| {
      CountUpdate(s.workers, s.main.created, MainStep(c, s).value.workers[s.main.created]);
    }
  }

  lemma WritersKept(c: Config, s: State, a: Action)
    requires WritersOk(c, s) && LockOk(s) && Act(c, s, a).Some?
    ensures WritersOk(c, Act(c, s, a).value)
  {
    match a
    case Move(Worker(i)) =>
      if s.workers[i].Deciding? && s.nrToStartup == 0 {
        WritersKeptByBroadcast(c, s, i);
      } else {
        WritersKeptByWorker(c, s, i);
      }
    case Move(Main) => WritersKeptByMain(c, s);
    case Spurious(i) => CountUpdate(s.workers, i, Woken);
    case SpuriousMain =>
  }

  /** Whatever the schedule, and whatever wakeups there are: nothing is written to an executable arena;
      when it is made executable, every worker has built its chases. */
  lemma {:induction false} WritersAreSafe(c: Config, schedule: seq<Action>)
    ensures var s := Run(c, schedule);
            WritersOk(c, s) && (s.executable ==> forall j | 0 <= j < |s.workers| :: Built(s.workers[j]))
  {
    if schedule == [] {
      CountZero(Start(c).workers);
    } else {
      var n := |schedule| - 1;
      WritersAreSafe(c, schedule[..n]);
      MutualExclusion(c, schedule[..n]);
      if Act(c, Run(c, schedule[..n]), schedule[n]).Some? {
        WritersKept(c, Run(c, schedule[..n]), schedule[n]);
      }
    }
    BuiltWhenExecutable(c, Run(c, schedule));
  }

  lemma BuiltWhenExecutable(c: Config, s: State)
    requires WritersOk(c, s)
    ensures s.executable ==> forall j | 0 <= j < |s.workers| :: Built(s.workers[j])
  {
    CountZero(s.workers);
    if s.executable && LastArriving(s) {
      OnlyPending(s.workers, s.holder.value.index);
    }
  }

  // ----- progress

  /** Everyone is through. */
  ghost predicate Started(s: State) {
    s.main.MainSampling? && forall i | 0 <= i < |s.workers| :: s.workers[i].Chasing?
  }

  /** The action is a step that a thread still has to make before everyone is through, or a wakeup. */
  predicate Unfinished(s: State, a: Action) {
    match a
    case Move(Main) => !s.main.MainSampling?
    case Move(Worker(i)) => i < |s.workers| && !s.workers[i].Chasing?
    case Spurious(_) => true
    case SpuriousMain => true
  }

  /** Such an action that is possible and harmless. */
  ghost predicate Useful(c: Config, s: State, a: Action)
    requires |s.workers| == |c.work|
  {
    Act(c, s, a).Some? && Harmless(s, a) && Unfinished(s, a)
  }

  /** The protocol never gets stuck: until everyone is through, some thread can take a useful step. */
  lemma NeverStuck(c: Config, schedule: seq<Action>) returns (t: Thread)
    requires HarmlessReturns(c, schedule) && !Started(Run(c, schedule))
    ensures Useful(c, Run(c, schedule), Move(t))
  {
    var s := Run(c, schedule);
    RunHolds(c, schedule);
    t := Next(c, s);
  }

  lemma Next(c: Config, s: State) returns (t: Thread)
    requires Invariant(c, s) && !Started(s)
    ensures Useful(c, s, Move(t))
  {
    if s.holder.Some? {
      t := s.holder.value;
      if t.Worker? {
        assert WorkerOk(c, s, t.index);
      }
    } else if s.main.MainSpawning? || s.main.MainLocking? {
      t := Main;
    } else if s.nrToStartup != 0 {
      CountZero(s.workers);
      var i :| 0 <= i < |s.workers| && Pending(s.workers[i]);
      assert WorkerOk(c, s, i);
      t := Worker(i);
    } else if s.main.MainWoken? {
      t := Main;
    } else if i :| 0 <= i < |s.workers| && !s.workers[i].Chasing? && !s.workers[i].Sleeping? {
      assert WorkerOk(c, s, i);
      t := Worker(i);
    } else {
      AllAsleep(c, s);
    }
  }

  /** They cannot all be asleep. */
  lemma AllAsleep(c: Config, s: State)
    requires Invariant(c, s) && s.holder.None?
    requires forall i | 0 <= i < |s.workers| :: s.workers[i].Chasing? || s.workers[i].Sleeping?
    ensures !s.main.MainSleeping? && forall i | 0 <= i < |s.workers| :: s.workers[i].Chasing?
  {
    CountZero(s.workers);
    forall i | 0 <= i < |s.workers|
      ensures s.workers[i].Chasing?
    {
      assert WorkerOk(c, s, i);
    }
  }

  function WorkerRank(pc: WorkerPc, work: nat): nat {
    match pc
    case Unborn => work + 11
    case Building(k) => k + 10
    case Locking => 9
    case Checking => 8
    case Flipping => 7
    case Arriving => 6
    case Deciding => 5
    case Sleeping => 4
    case Woken => 3
    case Leaving => 2
    case Chasing => 0
  }

  function MainRank(pc: MainPc, n: nat): nat {
    match pc
    case MainSpawning(k) => if k <= n then n - k + 7 else 7
    case MainLocking => 6
    case MainDeciding => 5
    case MainSleeping => 4
    case MainWoken => 3
    case MainLeaving => 2
    case MainSampling => 0
  }

  function WorkersRank(ws: seq<WorkerPc>, work: seq<nat>): nat
    requires |ws| == |work|
  {
    if ws == [] then 0
    else var n := |ws| - 1; WorkersRank(ws[..n], work[..n]) + WorkerRank(ws[n], work[n])
  }

  /** How many steps are left at most. */
  function Rank(c: Config, s: State): nat
    requires |s.workers| == |c.work|
  {
    WorkersRank(s.workers, c.work) + MainRank(s.main, |c.work|)
  }

  lemma {:induction false} RankUpdate(ws: seq<WorkerPc>, work: seq<nat>, i: nat, pc: WorkerPc)
    requires |ws| == |work| && i < |ws|
    ensures WorkersRank(ws[i := pc], work) ==
              WorkersRank(ws, work) - WorkerRank(ws[i], work[i]) + WorkerRank(pc, work[i])
  {
    var n := |ws| - 1;
    if i == n {
      assert ws[i := pc][..n] == ws[..n];
    } else {
      RankUpdate(ws[..n], work[..n], i, pc);
      assert ws[i := pc][..n] == ws[..n][i := pc];
    }
  }

  lemma {:induction false} RankBroadcast(ws: seq<WorkerPc>, work: seq<nat>)
    requires |ws| == |work|
    ensures WorkersRank(WakeWorkers(ws), work) <= WorkersRank(ws, work)
  {
    if ws != [] {
      var n := |ws| - 1;
      RankBroadcast(ws[..n], work[..n]);
      assert WakeWorkers(ws)[..n] == WakeWorkers(ws[..n]);
    }
  }

  lemma WorkerMoves(c: Config, s: State, i: nat) returns (pc: WorkerPc)
    requires |s.workers| == |c.work| && i < |s.workers| && !s.workers[i].Chasing? && WorkerStep(c, s, i).Some?
    requires !(s.workers[i].Deciding? && s.nrToStartup == 0)
    ensures WorkerStep(c, s, i).value.workers == s.workers[i := pc] && WorkerStep(c, s, i).value.main == s.main
    ensures WorkerRank(pc, c.work[i]) < WorkerRank(s.workers[i], c.work[i])
  {
    pc := WorkerStep(c, s, i).value.workers[i];
  }

  lemma WorkerDescends(c: Config, s: State, i: nat)
    requires Invariant(c, s) && i < |s.workers| && !s.workers[i].Chasing? && WorkerStep(c, s, i).Some?
    ensures Rank(c, WorkerStep(c, s, i).value) < Rank(c, s)
  {
    if s.workers[i].Deciding? && s.nrToStartup == 0 {
      RankUpdate(s.workers, c.work, i, Leaving);
      RankBroadcast(s.workers[i := Leaving], c.work);
    } else {
      var pc := WorkerMoves(c, s, i);
      RankUpdate(s.workers, c.work, i, pc);
    }
  }

  lemma MainDescends(c: Config, s: State)
    requires Invariant(c, s) && !s.main.MainSampling? && MainStep(c, s).Some?
    ensures Rank(c, MainStep(c, s).value) < Rank(c, s)
  {
    if s.main.MainSpawning? && s.main.created < |c.work| {
      var k := s.main.created;
      assert WorkerOk(c, s, k);
      RankUpdate(s.workers, c.work, k, Building(c.work[k]));
    }
  }

  /** Every useful step brings the start nearer. */
  lemma UsefulStepsDescend(c: Config, s: State, a: Action)
    requires Invariant(c, s) && Useful(c, s, a)
    ensures Rank(c, Act(c, s, a).value) < Rank(c, s)
  {
    match a
    case Move(Main) => MainDescends(c, s);
    case Move(Worker(i)) => WorkerDescends(c, s, i);
    case Spurious(i) => RankUpdate(s.workers, c.work, i, Woken);
    case SpuriousMain =>
  }

  /** Every turn of the schedule goes to a thread that has something to do. */
  ghost predicate Busy(c: Config, schedule: seq<Action>) {
    forall k | 0 <= k < |schedule| :: Useful(c, Run(c, schedule[..k]), schedule[k])
  }

  lemma BusyIsHarmless(c: Config, schedule: seq<Action>)
    requires Busy(c, schedule)
    ensures HarmlessReturns(c, schedule)
  {
    forall k | 0 <= k < |schedule|
      ensures Harmless(Run(c, schedule[..k]), schedule[k])
    {
      assert Useful(c, Run(c, schedule[..k]), schedule[k]);
    }
  }

  lemma {:induction false} BusyRunsAreBounded(c: Config, schedule: seq<Action>)
    requires Busy(c, schedule)
    ensures |schedule| + Rank(c, Run(c, schedule)) <= Rank(c, Start(c))
  {
    if schedule != [] {
      var n := |schedule| - 1;
      var before := schedule[..n];
      assert forall k | 0 <= k < n :: before[..k] == schedule[..k] && before[k] == schedule[k];
      assert Useful(c, Run(c, before), schedule[n]);
      BusyRunsAreBounded(c, before);
      BusyIsHarmless(c, before);
      RunHolds(c, before);
      UsefulStepsDescend(c, Run(c, before), schedule[n]);
    }
  }

  /** Every schedule that keeps giving turns to threads that have something to do lets everyone
      through after a bounded number of steps: such a run can be extended until all have started,
      and no such run is longer than the bound. */
  lemma EveryoneStarts(c: Config, schedule: seq<Action>)
    requires Busy(c, schedule)
    ensures |schedule| <= Rank(c, Start(c))
    ensures Started(Run(c, schedule)) || exists a :: Busy(c, schedule + [a])
  {
    BusyRunsAreBounded(c, schedule);
    if !Started(Run(c, schedule)) {
      BusyIsHarmless(c, schedule);
      var t := NeverStuck(c, schedule);
      var longer := schedule + [Move(t)];
      forall k | 0 <= k < |longer|
        ensures Useful(c, Run(c, longer[..k]), longer[k])
      {
        if k < |schedule| {
          assert longer[..k] == schedule[..k];
        } else {
          assert longer[..k] == schedule;
        }
      }
      assert Busy(c, longer);
    }
  }

  // ----- what a harmful wakeup does

  lemma RunMore(c: Config, schedule: seq<Action>, a: Action, s: State) returns (more: seq<Action>, s': State)
    requires s == Run(c, schedule) && Act(c, s, a).Some?
    ensures more == schedule + [a] && s' == Act(c, s, a).value == Run(c, more)
  {
    more := schedule + [a];
    assert more[..|schedule|] == schedule;
    s' := Act(c, s, a).value;
  }

  /** Two workers, the second with one access to go, and the first asleep. */
  const WAITING := State([Sleeping, Building(1)], MainSpawning(2), 1, None, false, 0, 0)

  lemma WaitingIsReachable(c: Config) returns (schedule: seq<Action>)
    requires c == Config([0, 1], true)
    ensures Run(c, schedule) == WAITING && forall k | 0 <= k < |schedule| :: schedule[k].Move?
  {
    assert Start(c).workers == [Unborn, Unborn];
    var r1, s1 := RunMore(c, [], Move(Main), Start(c));
    assert s1.workers == [Building(0), Unborn];
    var r2, s2 := RunMore(c, r1, Move(Main), s1);
    assert s2.workers == [Building(0), Building(1)];
    var r3, s3 := RunMore(c, r2, Move(Worker(0)), s2);
    var r4, s4 := RunMore(c, r3, Move(Worker(0)), s3);
    var r5, s5 := RunMore(c, r4, Move(Worker(0)), s4);
    var r6, s6 := RunMore(c, r5, Move(Worker(0)), s5);
    assert s6.workers == [Deciding, Building(1)];
    schedule, s6 := RunMore(c, r6, Move(Worker(0)), s6);
    assert s6.workers == [Sleeping, Building(1)];
  }

  /** One harmful wakeup, and a worker branches into an arena that another one is still writing, and
      that is not executable. */
  lemma SpuriousWakeupBreaksBarrier(c: Config) returns (schedule: seq<Action>)
    requires c == Config([0, 1], true)
    ensures Run(c, schedule).workers == [Chasing, Building(1)] && Run(c, schedule).faults == 1
  {
    var r0 := WaitingIsReachable(c);
    var r1, s1 := RunMore(c, r0, Spurious(0), WAITING);
    assert s1.workers == [Woken, Building(1)];
    var r2, s2 := RunMore(c, r1, Move(Worker(0)), s1);
    var r3, s3 := RunMore(c, r2, Move(Worker(0)), s2);
    assert s3.workers == [Chasing, Building(1)];
    schedule, s3 := RunMore(c, r3, Move(Worker(0)), s3);
  }

  lemma {:induction false} SpawnAll(c: Config, k: nat) returns (schedule: seq<Action>)
    requires k <= |c.work|
    ensures var s := Run(c, schedule);
            s == State(s.workers, MainSpawning(k), |c.work|, None, false, 0, 0)
            && forall i | 0 <= i < |c.work| :: s.workers[i] == if i < k then Building(c.work[i]) else Unborn
  {
    schedule := [];
    if k != 0 {
      schedule := SpawnAll(c, k - 1);
      var s;
      schedule, s := RunMore(c, schedule, Move(Main), Run(c, schedule));
    }
  }

  /** One harmful wakeup of main, and in any configuration it can start sampling before a single
      worker has built anything. */
  lemma MainCanSampleEarly(c: Config) returns (schedule: seq<Action>)
    requires c.work != []
    ensures var s := Run(c, schedule);
            s.main == MainSampling && s.nrToStartup == |c.work|
            && forall i | 0 <= i < |c.work| :: s.workers[i] == Building(c.work[i])
  {
    schedule := SpawnAll(c, |c.work|);
    var s := Run(c, schedule);
    schedule, s := RunMore(c, schedule, Move(Main), s);
    schedule, s := RunMore(c, schedule, Move(Main), s);
    schedule, s := RunMore(c, schedule, Move(Main), s);
    assert s.main == MainSleeping;
    schedule, s := RunMore(c, schedule, SpuriousMain, s);
    schedule, s := RunMore(c, schedule, Move(Main), s);
    schedule, s := RunMore(c, schedule, Move(Main), s);
  }
}
