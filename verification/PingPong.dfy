/** The ping-pong of two threads over one word (multichase/pingpong.c), and main sampling the count
    of handovers. One step is one atomic action; the scheduler is arbitrary, and a wait may also end
    without a broadcast. */
module PingPong {
  import opened Wrappers
  import opened Numbers

  /** The thread with me == 0 and the one with me == 1. */
  datatype Who = Even | Odd

  function Me(who: Who): nat { if who.Even? then 0 else 1 }
  function Buddy(who: Who): Who { if who.Even? then Odd else Even }

  /** Where a thread is in common_setup and in its loop. */
  datatype Pc =
    | Mapping | Locking | Deciding | Sleeping | Woken | Leaving
    | Testing | Trying | Storing | Counting | Publishing | Exited

  datatype Local = Local(pc: Pc, nr: nat)

  const BATCH: nat := 10000
  const WORD: nat := 0x1_0000_0000

  /** The word is None until the even thread has mapped it. The last five fields are history:
      who has won the exchange, what main has collected, how often the even thread has published,
      how often the shared counter has wrapped, and loops that used the word before it existed. */
  datatype State = State(
    even: Local, odd: Local, word: Option<nat>,
    waitForBuddy: bool, holder: Option<Who>, stop: bool, nrPingpongs: nat,
    winners: seq<Who>, samples: seq<nat>, publishes: nat, wraps: nat, faults: nat)

  const START := State(
    Local(Mapping, 0), Local(Mapping, 0), None, true, None, false, 0, [], [], 0, 0, 0)

  function Get(s: State, who: Who): Local { if who.Even? then s.even else s.odd }

  function Put(s: State, who: Who, l: Local): State { if who.Even? then s.(even := l) else s.(odd := l) }

  function Goto(s: State, who: Who, pc: Pc): State { Put(s, who, Get(s, who).(pc := pc)) }

  // ----- steps

  /** The exchange succeeds: the word goes to the buddy. */
  function Handover(s: State, who: Who): State {
    Goto(s, who, Counting).(word := Some(Me(Buddy(who))), winners := s.winners + [who])
  }

  function WakeBuddy(s: State, who: Who): State {
    if Get(s, Buddy(who)).pc.Sleeping? then Goto(s, Buddy(who), Woken) else s
  }

  /** The next action of a thread. With `locked`, the exchange is one compare-and-swap; without,
      it is a load followed by a separate store. */
  function ThreadStep(locked: bool, s: State, who: Who): Option<State> {
    var l := Get(s, who);
    match l.pc
    case Mapping => Some(if who.Even? then Goto(s, who, Locking).(word := Some(Me(who))) else Goto(s, who, Locking))
    case Locking => if s.holder.None? then Some(Goto(s, who, Deciding).(holder := Some(who))) else None
    case Deciding =>
      if s.waitForBuddy then Some(Goto(s, who, Sleeping).(waitForBuddy := false, holder := None))
      else Some(WakeBuddy(Goto(s, who, Leaving).(waitForBuddy := true), who))
    case Sleeping => None
    case Woken => if s.holder.None? then Some(Goto(s, who, Leaving).(holder := Some(who))) else None
    case Leaving => Some(Goto(s, who, Testing).(holder := None))
    case Testing => Some(Goto(s, who, if s.stop then Exited else Trying))
    case Trying =>
      if s.word.None? then Some(Goto(s, who, Testing).(faults := s.faults + 1))
      else if s.word.value != Me(who) then Some(Goto(s, who, Testing))
      else if locked then Some(Handover(s, who))
      else Some(Goto(s, who, Storing))
    case Storing => Some(Handover(s, who))
    case Counting =>
      var nr := (l.nr + 1) % WORD;
      Some(Put(s, who, Local(if nr == BATCH && who.Even? then Publishing else Testing, nr)))
    case Publishing =>
      var sum := s.nrPingpongs + 2 * l.nr;
      Some(Put(s, who, Local(Testing, 0)).(
             nrPingpongs := sum % WORD, publishes := s.publishes + 1, wraps := s.wraps + sum / WORD))
    case Exited => None
  }

  datatype Action = Thread(who: Who) | Sample | Stop | Spurious(who: Who)

  function Step(locked: bool, s: State, a: Action): Option<State> {
    match a
    case Thread(who) => ThreadStep(locked, s, who)
    case Sample => Some(s.(samples := s.samples + [s.nrPingpongs], nrPingpongs := 0))
    case Stop => Some(s.(stop := true))
    case Spurious(who) => if Get(s, who).pc.Sleeping? then Some(Goto(s, who, Woken)) else None
  }

  /** The state after a schedule; a thread that cannot move just loses its turn. */
  function Run(locked: bool, schedule: seq<Action>): State {
    if schedule == [] then START
    else
      var s := Run(locked, schedule[..|schedule| - 1]);
      match Step(locked, s, schedule[|schedule| - 1]) case Some(s') => s' case None => s
  }

  // ----- what holds in every state

  predicate Critical(pc: Pc) { pc.Deciding? || pc.Leaving? }

  predicate Arrived(pc: Pc) { !pc.Mapping? && !pc.Locking? && !pc.Deciding? }

  /** Past the barrier of common_setup: a wait is over and the mutex taken back. A thread that has
      only been woken is not. */
  predicate Past(pc: Pc) { Arrived(pc) && !pc.Sleeping? && !pc.Woken? }

  /** Whose turn it is after n handovers. */
  function Leader(n: nat): Who { if n % 2 == 0 then Even else Odd }

  lemma LeaderNext(n: nat)
    ensures Leader(n + 1) == Buddy(Leader(n))
  {}

  /** Turns alternate, and the even thread has the first. */
  ghost predicate Alternating(winners: seq<Who>) {
    forall k | 0 <= k < |winners| :: winners[k] == Leader(k)
  }

  /** How often the thread has won, and how many of these wins it has counted. */
  function Wins(winners: seq<Who>, who: Who): nat {
    if winners == [] then 0
    else Wins(winners[..|winners| - 1], who) + if winners[|winners| - 1] == who then 1 else 0
  }

  function Counted(s: State, who: Who): int {
    Wins(s.winners, who) - if Get(s, who).pc.Counting? then 1 else 0
  }

  ghost predicate BarrierOk(s: State, who: Who) {
    var pc, buddy := Get(s, who).pc, Get(s, Buddy(who)).pc;
    (Critical(pc) <==> s.holder == Some(who))
    && (Past(pc) ==> Arrived(buddy))
    && (pc.Sleeping? ==> !Arrived(buddy))
    && (s.waitForBuddy <==> (Arrived(pc) <==> Arrived(buddy)))
  }

  ghost predicate WordOk(s: State) {
    Alternating(s.winners)
    && (s.even.pc.Mapping? <==> s.word.None?)
    && (s.word.None? ==> s.winners == [])
    && (s.word.Some? ==> s.word.value == Me(Leader(|s.winners|)))
  }

  ghost predicate CountOk(s: State) {
    s.even.nr + BATCH * s.publishes == Counted(s, Even)
    && (if s.even.pc.Publishing? then s.even.nr == BATCH else s.even.nr < BATCH)
    && !s.odd.pc.Publishing?
    && 0 <= Counted(s, Odd) && s.odd.nr == Counted(s, Odd) % WORD
    && s.nrPingpongs < WORD
    && Sum(s.samples) + s.nrPingpongs + WORD * s.wraps == 2 * BATCH * s.publishes
  }

  /** Between its load and its store, a thread has the word. */
  ghost predicate StoringOk(s: State) {
    (s.even.pc.Storing? ==> s.word == Some(Me(Even))) && (s.odd.pc.Storing? ==> s.word == Some(Me(Odd)))
  }

  /** What holds whatever wakeups there are. */
  ghost predicate Invariant(s: State) {
    StoringOk(s) && WordOk(s) && CountOk(s)
  }

  /** What the barrier adds, as long as no woken thread takes the mutex back too early. */
  ghost predicate SetupOk(s: State) {
    BarrierOk(s, Even) && BarrierOk(s, Odd) && s.faults == 0
  }

  lemma WinsMore(winners: seq<Who>, w: Who, who: Who)
    ensures Wins(winners + [w], who) == Wins(winners, who) + if w == who then 1 else 0
  {
    assert (winners + [w])[..|winners|] == winners;
  }

  /** A step that wins, counts, publishes and collects nothing. */
  ghost predicate SameCounts(s: State, s': State) {
    s'.winners == s.winners && s'.samples == s.samples && s'.nrPingpongs == s.nrPingpongs
    && s'.publishes == s.publishes && s'.wraps == s.wraps
    && s'.even.nr == s.even.nr && s'.odd.nr == s.odd.nr
    && (s'.even.pc.Counting? <==> s.even.pc.Counting?) && (s'.odd.pc.Counting? <==> s.odd.pc.Counting?)
    && (s'.even.pc.Publishing? <==> s.even.pc.Publishing?) && (s'.odd.pc.Publishing? <==> s.odd.pc.Publishing?)
  }

  lemma CountFrame(s: State, s': State)
    requires CountOk(s) && SameCounts(s, s')
    ensures CountOk(s')
  {}

  lemma SetupKeeps(locked: bool, s: State, who: Who)
    requires Invariant(s) && ThreadStep(locked, s, who).Some? && !Past(Get(s, who).pc)
    ensures Invariant(ThreadStep(locked, s, who).value)
  {
    SetupCounts(locked, s, who);
    CountFrame(s, ThreadStep(locked, s, who).value);
    SetupKeepsWord(locked, s, who);
  }

  lemma SetupCounts(locked: bool, s: State, who: Who)
    requires ThreadStep(locked, s, who).Some? && !Past(Get(s, who).pc)
    ensures SameCounts(s, ThreadStep(locked, s, who).value)
  {}

  lemma SetupKeepsWord(locked: bool, s: State, who: Who)
    requires WordOk(s) && StoringOk(s) && ThreadStep(locked, s, who).Some? && !Past(Get(s, who).pc)
    ensures WordOk(ThreadStep(locked, s, who).value) && StoringOk(ThreadStep(locked, s, who).value)
  {}

  lemma LoopKeeps(locked: bool, s: State, who: Who)
    requires Invariant(s) && Past(Get(s, who).pc) && ThreadStep(locked, s, who).Some?
    requires !Get(s, who).pc.Counting? && !Get(s, who).pc.Publishing?
    ensures Invariant(ThreadStep(locked, s, who).value)
  {
    if Get(s, who).pc.Storing? || (Get(s, who).pc.Trying? && locked && s.word == Some(Me(who))) {
      HandoverKeeps(s, who);
    } else {
      MoveKeeps(locked, s, who);
    }
  }

  /** A thread that only moves on. */
  lemma MoveKeeps(locked: bool, s: State, who: Who)
    requires Invariant(s) && ThreadStep(locked, s, who).Some?
    requires var pc := Get(s, who).pc;
             pc.Testing? || pc.Leaving? || (pc.Trying? && !(locked && s.word == Some(Me(who))))
    ensures Invariant(ThreadStep(locked, s, who).value)
  {
    var s' := ThreadStep(locked, s, who).value;
    match who {
      case Even => CountFrame(s, s');
      case Odd => CountFrame(s, s');
    }
  }

  lemma HandoverKeeps(s: State, who: Who)
    requires Invariant(s) && (Get(s, who).pc.Trying? || Get(s, who).pc.Storing?) && s.word == Some(Me(who))
    ensures Invariant(Handover(s, who))
  {
    HandoverCounts(s, Handover(s, who), who);
    HandoverWord(s, who);
  }

  lemma HandoverWord(s: State, who: Who)
    requires WordOk(s) && !Get(s, who).pc.Mapping? && s.word == Some(Me(who))
    ensures WordOk(Handover(s, who))
  {
    LeaderNext(|s.winners|);
  }

  lemma HandoverCounts(s: State, s': State, who: Who)
    requires CountOk(s) && (Get(s, who).pc.Trying? || Get(s, who).pc.Storing?) && s' == Handover(s, who)
    ensures CountOk(s')
  {
    WinsMore(s.winners, who, Even);
    WinsMore(s.winners, who, Odd);
    assert Counted(s', Even) == Counted(s, Even) && Counted(s', Odd) == Counted(s, Odd);
  }

  lemma CountingKeeps(locked: bool, s: State, who: Who)
    requires Invariant(s) && Get(s, who).pc.Counting?
    ensures Invariant(ThreadStep(locked, s, who).value)
  {
    if who.Odd? {
      NextIsModulo(Counted(s, Odd), WORD);
    }
  }

  lemma PublishingKeeps(locked: bool, s: State, who: Who)
    requires Invariant(s) && Get(s, who).pc.Publishing?
    ensures Invariant(ThreadStep(locked, s, who).value)
  {}

  lemma StepKeeps(locked: bool, s: State, a: Action)
    requires Invariant(s) && Step(locked, s, a).Some?
    ensures Invariant(Step(locked, s, a).value)
  {
    match a
    case Thread(who) =>
      if !Past(Get(s, who).pc) {
        SetupKeeps(locked, s, who);
      } else if Get(s, who).pc.Counting? {
        CountingKeeps(locked, s, who);
      } else if Get(s, who).pc.Publishing? {
        PublishingKeeps(locked, s, who);
      } else {
        LoopKeeps(locked, s, who);
      }
    case Sample => SampleKeeps(locked, s);
    case Stop => StopKeeps(locked, s);
    case Spurious(who) => CountFrame(s, Goto(s, who, Woken));
  }

  lemma SampleKeeps(locked: bool, s: State)
    requires Invariant(s)
    ensures Invariant(Step(locked, s, Sample).value)
  {
    SumMore(s.samples, s.nrPingpongs);
  }

  lemma StopKeeps(locked: bool, s: State)
    requires Invariant(s)
    ensures Invariant(Step(locked, s, Stop).value)
  {
    CountFrame(s, Step(locked, s, Stop).value);
  }

  lemma {:induction false} RunHolds(locked: bool, schedule: seq<Action>)
    ensures Invariant(Run(locked, schedule))
  {
    if schedule != [] {
      var n := |schedule| - 1;
      RunHolds(locked, schedule[..n]);
      var s := Run(locked, schedule[..n]);
      if Step(locked, s, schedule[n]).Some? {
        StepKeeps(locked, s, schedule[n]);
      }
    }
  }

  // ----- the barrier of common_setup

  /** The action is not the return of a woken thread from its wait before the buddy has arrived. */
  predicate Orderly(s: State, a: Action) {
    a.Thread? && Get(s, a.who).pc.Woken? && s.holder.None? ==> Arrived(Get(s, Buddy(a.who)).pc)
  }

  lemma ArrivingKeepsBarrier(locked: bool, s: State, who: Who)
    requires SetupOk(s) && ThreadStep(locked, s, who).Some? && !Past(Get(s, who).pc) && Orderly(s, Thread(who))
    ensures SetupOk(ThreadStep(locked, s, who).value)
  {
    assert BarrierOk(s, who) && BarrierOk(s, Buddy(who));
    var s' := ThreadStep(locked, s, who).value;
    assert BarrierOk(s', who);
    assert BarrierOk(s', Buddy(who));
  }

  lemma LoopingKeepsBarrier(locked: bool, s: State, who: Who)
    requires SetupOk(s) && Invariant(s) && ThreadStep(locked, s, who).Some? && Past(Get(s, who).pc)
    ensures SetupOk(ThreadStep(locked, s, who).value)
  {
    assert BarrierOk(s, who) && BarrierOk(s, Buddy(who));
    var s' := ThreadStep(locked, s, who).value;
    LoopStep(locked, s, who);
    assert BarrierOk(s', who);
    assert BarrierOk(s', Buddy(who));
  }

  /** What a thread that is past the barrier does to it: it only gives back the mutex. */
  ghost predicate LeavesBarrier(s: State, s': State, who: Who) {
    Get(s', Buddy(who)) == Get(s, Buddy(who)) && s'.waitForBuddy == s.waitForBuddy && Past(Get(s', who).pc)
    && (s.word.Some? ==> s'.faults == s.faults)
    && s'.holder == (if Get(s, who).pc.Leaving? then None else s.holder)
    && !Critical(Get(s', who).pc)
  }

  lemma LoopStep(locked: bool, s: State, who: Who)
    requires ThreadStep(locked, s, who).Some? && Past(Get(s, who).pc)
    ensures LeavesBarrier(s, ThreadStep(locked, s, who).value, who)
  {
    if Get(s, who).pc.Trying? || Get(s, who).pc.Storing? {
      ExchangeStep(locked, s, who);
    } else {
      OtherLoopStep(locked, s, who);
    }
  }

  lemma ExchangeStep(locked: bool, s: State, who: Who)
    requires Get(s, who).pc.Trying? || Get(s, who).pc.Storing?
    ensures LeavesBarrier(s, ThreadStep(locked, s, who).value, who)
  {}

  lemma OtherLoopStep(locked: bool, s: State, who: Who)
    requires ThreadStep(locked, s, who).Some? && Past(Get(s, who).pc) && !Get(s, who).pc.Trying?
             && !Get(s, who).pc.Storing?
    ensures LeavesBarrier(s, ThreadStep(locked, s, who).value, who)
  {}

  /** No woken thread takes the mutex back before its buddy has arrived. */
  ghost predicate OrderlyReturns(locked: bool, schedule: seq<Action>) {
    forall k | 0 <= k < |schedule| :: Orderly(Run(locked, schedule[..k]), schedule[k])
  }

  lemma OrderlyBefore(locked: bool, schedule: seq<Action>, n: nat)
    requires OrderlyReturns(locked, schedule) && n <= |schedule|
    ensures OrderlyReturns(locked, schedule[..n])
  {
    forall k | 0 <= k < n
      ensures Orderly(Run(locked, schedule[..n][..k]), schedule[..n][k])
    {
      assert schedule[..n][..k] == schedule[..k];
    }
  }

  lemma {:induction false} SetupHolds(locked: bool, schedule: seq<Action>)
    requires OrderlyReturns(locked, schedule)
    ensures SetupOk(Run(locked, schedule))
  {
    if schedule != [] {
      var n := |schedule| - 1;
      OrderlyBefore(locked, schedule, n);
      SetupHolds(locked, schedule[..n]);
      RunHolds(locked, schedule[..n]);
      var s, a := Run(locked, schedule[..n]), schedule[n];
      assert Orderly(s, a);
      if Step(locked, s, a).Some? {
        ActionKeepsBarrier(locked, s, a);
      }
    }
  }

  lemma ActionKeepsBarrier(locked: bool, s: State, a: Action)
    requires SetupOk(s) && Invariant(s) && Step(locked, s, a).Some? && Orderly(s, a)
    ensures SetupOk(Step(locked, s, a).value)
  {
    match a
    case Thread(who) =>
      if Past(Get(s, who).pc) {
        LoopingKeepsBarrier(locked, s, who);
      } else {
        ArrivingKeepsBarrier(locked, s, who);
      }
    case Spurious(who) => assert BarrierOk(s, who) && BarrierOk(s, Buddy(who));
    case Sample =>
    case Stop =>
  }

  /** Who is past the barrier finds the buddy arrived. */
  ghost predicate TogetherOnly(s: State) {
    (Past(s.even.pc) ==> Arrived(s.odd.pc)) && (Past(s.odd.pc) ==> Arrived(s.even.pc))
  }

  ghost predicate AlwaysTogether(locked: bool, schedule: seq<Action>) {
    forall k | 0 <= k <= |schedule| :: TogetherOnly(Run(locked, schedule[..k]))
  }

  /** A thread that returns from its wait too early is past the barrier alone. */
  lemma ReturnSeparates(locked: bool, s: State, a: Action)
    requires !Orderly(s, a)
    ensures Step(locked, s, a).Some? && !TogetherOnly(Step(locked, s, a).value)
  {}

  /** Throughout a run no thread is past the barrier alone if and only if no woken thread takes the
      mutex back before its buddy has arrived; when the threads are woken does not matter. */
  lemma SetupHoldsExactly(locked: bool, schedule: seq<Action>)
    ensures AlwaysTogether(locked, schedule) <==> OrderlyReturns(locked, schedule)
  {
    if OrderlyReturns(locked, schedule) {
      forall k | 0 <= k <= |schedule|
        ensures TogetherOnly(Run(locked, schedule[..k]))
      {
        OrderlyBefore(locked, schedule, k);
        SetupHolds(locked, schedule[..k]);
      }
    }
    if AlwaysTogether(locked, schedule) {
      forall k | 0 <= k < |schedule|
        ensures Orderly(Run(locked, schedule[..k]), schedule[k])
      {
        assert TogetherOnly(Run(locked, schedule[..k + 1]));
        assert schedule[..k + 1][..k] == schedule[..k];
        if !Orderly(Run(locked, schedule[..k]), schedule[k]) {
          ReturnSeparates(locked, Run(locked, schedule[..k]), schedule[k]);
        }
      }
    }
  }

  /** In a run without a wakeup of its own, every return is orderly. */
  lemma NoWakeupsAreOrderly(locked: bool, schedule: seq<Action>)
    requires forall k | 0 <= k < |schedule| :: !schedule[k].Spurious?
    ensures OrderlyReturns(locked, schedule)
  {
    forall k | 0 <= k < |schedule|
      ensures Orderly(Run(locked, schedule[..k]), schedule[k])
    {
      WokenByBuddy(locked, schedule[..k]);
    }
  }

  ghost predicate WokenTogether(s: State) {
    (s.even.pc.Woken? ==> Arrived(s.odd.pc)) && (s.odd.pc.Woken? ==> Arrived(s.even.pc))
  }

  lemma {:induction false} WokenByBuddy(locked: bool, schedule: seq<Action>)
    requires forall k | 0 <= k < |schedule| :: !schedule[k].Spurious?
    ensures WokenTogether(Run(locked, schedule))
  {
    if schedule != [] {
      var n := |schedule| - 1;
      WokenByBuddy(locked, schedule[..n]);
      if Step(locked, Run(locked, schedule[..n]), schedule[n]).Some? {
        BuddyWakes(locked, Run(locked, schedule[..n]), schedule[n]);
      }
    }
  }

  lemma BuddyWakes(locked: bool, s: State, a: Action)
    requires WokenTogether(s) && Step(locked, s, a).Some? && !a.Spurious?
    ensures WokenTogether(Step(locked, s, a).value)
  {
    if a.Thread? {
      StepArrives(locked, s, a.who);
    }
  }

  /** What a step does to arrivals and wakeups. */
  lemma StepArrives(locked: bool, s: State, who: Who)
    requires ThreadStep(locked, s, who).Some?
    ensures var s' := ThreadStep(locked, s, who).value;
            var pc, pc' := Get(s, who).pc, Get(s', who).pc;
            var buddy, buddy' := Get(s, Buddy(who)).pc, Get(s', Buddy(who)).pc;
            !pc'.Woken? && (Arrived(pc) ==> Arrived(pc'))
            && (buddy' == buddy || (buddy.Sleeping? && buddy'.Woken? && Arrived(pc')))
  {
    if Past(Get(s, who).pc) {
      LoopStep(locked, s, who);
    } else if !Get(s, who).pc.Deciding? {
      StepKeepsBuddy(locked, s, who);
    }
  }

  lemma StepKeepsBuddy(locked: bool, s: State, who: Who)
    requires ThreadStep(locked, s, who).Some? && !Get(s, who).pc.Deciding? && !Past(Get(s, who).pc)
    ensures var s' := ThreadStep(locked, s, who).value;
            Get(s', Buddy(who)) == Get(s, Buddy(who)) && !Get(s', who).pc.Woken?
            && (Arrived(Get(s, who).pc) ==> Arrived(Get(s', who).pc))
  {}

  lemma OddAsleep(locked: bool) returns (schedule: seq<Action>)
    ensures Run(locked, schedule) == START.(odd := Local(Sleeping, 0), waitForBuddy := false)
  {
    var s := START;
    schedule, s := RunMore(locked, [], Thread(Odd), s);
    schedule, s := RunMore(locked, schedule, Thread(Odd), s);
    schedule, s := RunMore(locked, schedule, Thread(Odd), s);
  }

  /** One early return, and the odd thread uses the word before it exists. */
  lemma OddCanBeTooEarly(locked: bool) returns (schedule: seq<Action>)
    ensures Run(locked, schedule).faults == 1 && Run(locked, schedule).word == None
  {
    schedule := OddAsleep(locked);
    var s := Run(locked, schedule);
    schedule, s := RunMore(locked, schedule, Spurious(Odd), s);
    schedule, s := RunMore(locked, schedule, Thread(Odd), s);
    assert s.odd == Local(Leaving, 0) && s.word == None;
    schedule, s := RunMore(locked, schedule, Thread(Odd), s);
    schedule, s := RunMore(locked, schedule, Thread(Odd), s);
    assert s.odd == Local(Trying, 0) && s.word == None;
    schedule, s := RunMore(locked, schedule, Thread(Odd), s);
  }

  // ----- the end

  /** How many steps of its own a thread in its loop needs at most to leave it once it is told to stop. */
  function ExitDistance(pc: Pc): nat {
    match pc
    case Exited => 0
    case Testing => 1
    case Publishing => 2
    case Leaving => 2
    case Counting => 3
    case Storing => 4
    case _ => 5
  }

  function Turns(schedule: seq<Action>, who: Who): nat {
    if schedule == [] then 0
    else Turns(schedule[..|schedule| - 1], who) + if schedule[|schedule| - 1] == Thread(who) then 1 else 0
  }

  lemma OwnStepToExit(locked: bool, s: State, who: Who)
    requires s.stop && Past(Get(s, who).pc) && !Get(s, who).pc.Exited?
    ensures ThreadStep(locked, s, who).Some?
    ensures var s' := ThreadStep(locked, s, who).value;
            s'.stop && Past(Get(s', who).pc) && ExitDistance(Get(s', who).pc) < ExitDistance(Get(s, who).pc)
  {
    match who
    case Even =>
    case Odd =>
  }

  /** Nobody else moves a thread that is past the barrier, and nobody takes the stop back. */
  lemma OthersLeaveLoop(locked: bool, s: State, a: Action, who: Who)
    requires Past(Get(s, who).pc) && a != Thread(who) && Step(locked, s, a).Some?
    ensures Get(Step(locked, s, a).value, who).pc == Get(s, who).pc
    ensures s.stop ==> Step(locked, s, a).value.stop
  {
    match a
    case Thread(other) =>
      assert other == Buddy(who) && who == Buddy(other);
      StepArrives(locked, s, other);
      StopStays(locked, s, other);
    case Sample =>
    case Stop =>
    case Spurious(_) =>
  }

  lemma StopStays(locked: bool, s: State, who: Who)
    requires ThreadStep(locked, s, who).Some?
    ensures ThreadStep(locked, s, who).value.stop == s.stop
  {
    match who
    case Even =>
    case Odd =>
  }

  /** A thread told to stop is as near to its exit as `distance` says, or has left. */
  ghost predicate Stopping(s: State, who: Who, distance: int) {
    s.stop && Past(Get(s, who).pc) && (Get(s, who).pc.Exited? || ExitDistance(Get(s, who).pc) <= distance)
  }

  lemma CloserToExit(locked: bool, s: State, a: Action, who: Who, distance: int)
    requires Stopping(s, who, distance)
    ensures var s' := match Step(locked, s, a) case Some(v) => v case None => s;
            Stopping(s', who, distance - if a == Thread(who) then 1 else 0)
  {
    if a == Thread(who) {
      if !Get(s, who).pc.Exited? {
        OwnStepToExit(locked, s, who);
      }
    } else if Step(locked, s, a).Some? {
      OthersLeaveLoop(locked, s, a, who);
    }
  }

  lemma {:induction false} StopsAfter(locked: bool, before: seq<Action>, more: seq<Action>, who: Who)
    requires Run(locked, before).stop && Past(Get(Run(locked, before), who).pc)
    ensures Stopping(Run(locked, before + more), who,
                     ExitDistance(Get(Run(locked, before), who).pc) - Turns(more, who))
  {
    if more == [] {
      assert before + more == before;
    } else {
      var n := |more| - 1;
      var distance := ExitDistance(Get(Run(locked, before), who).pc);
      StopsAfter(locked, before, more[..n], who);
      assert before + more == (before + more[..n]) + [more[n]];
      LastAction(locked, before + more[..n], more[n]);
      CloserToExit(locked, Run(locked, before + more[..n]), more[n], who, distance - Turns(more[..n], who));
    }
  }

  /** In every run: once main has told the threads to stop, a thread in its loop exits after at most five
      steps of its own, whatever the other does. */
  lemma StopEnds(locked: bool, before: seq<Action>, more: seq<Action>, who: Who)
    requires Past(Get(Run(locked, before), who).pc) && 5 <= Turns(more, who)
    ensures Get(Run(locked, before + [Stop] + more), who).pc.Exited?
  {
    LastAction(locked, before, Stop);
    StopsAfter(locked, before + [Stop], more, who);
  }

  // ----- results

  lemma {:induction false} AlternatingWins(winners: seq<Who>)
    requires Alternating(winners)
    ensures Wins(winners, Even) - Wins(winners, Odd) == |winners| % 2
    ensures Wins(winners, Even) + Wins(winners, Odd) == |winners|
  {
    if winners != [] {
      AlternatingWins(winners[..|winners| - 1]);
    }
  }

  /** In every run, with either exchange: the winners strictly alternate, starting with the even
      thread; the even thread is ahead by one win exactly while the word is the odd thread's. */
  lemma HandoversAlternate(locked: bool, schedule: seq<Action>)
    ensures var s := Run(locked, schedule);
            Alternating(s.winners)
            && (Wins(s.winners, Even) - Wins(s.winners, Odd) == if s.word == Some(Me(Odd)) then 1 else 0)
  {
    var s := Run(locked, schedule);
    RunHolds(locked, schedule);
    AlternatingWins(s.winners);
    assert Me(Leader(|s.winners|)) == |s.winners| % 2;
  }

  /** Without early returns the barrier of common_setup does its work: a thread that is past it finds the
      word mapped, nobody is left asleep once both have come, and it is ready to be used again. */
  lemma SetupBarrierHolds(locked: bool, schedule: seq<Action>, who: Who)
    requires OrderlyReturns(locked, schedule)
    ensures var s := Run(locked, schedule);
            s.faults == 0
            && (Past(Get(s, who).pc) ==> s.word.Some? && Arrived(Get(s, Buddy(who)).pc) && s.waitForBuddy)
            && (Arrived(s.even.pc) && Arrived(s.odd.pc) ==> !Get(s, who).pc.Sleeping?)
  {
    SetupHolds(locked, schedule);
    RunHolds(locked, schedule);
  }

  /** In every run: what main has collected, what it can still collect, and what the wraps of the
      32-bit counter have lost come to 20000 for every 10000 wins the even thread has counted. */
  lemma CollectedIsPublished(locked: bool, schedule: seq<Action>)
    ensures var s := Run(locked, schedule);
            !s.even.pc.Publishing? ==>
              0 <= Counted(s, Even)
              && Sum(s.samples) + s.nrPingpongs + WORD * s.wraps == 2 * BATCH * (Counted(s, Even) / BATCH)
  {
    var s := Run(locked, schedule);
    RunHolds(locked, schedule);
    if !s.even.pc.Publishing? {
      DivModUnique(Counted(s, Even), BATCH, s.publishes, s.even.nr);
    }
  }

  /** Nothing is lost exactly when the counter has never wrapped; and then the count is never more
      than one ahead of the true number of handovers, and lags by no more than 20002. */
  lemma CollectedBracketsHandovers(locked: bool, schedule: seq<Action>)
    ensures var s := Run(locked, schedule);
            var reported := Sum(s.samples) + s.nrPingpongs;
            reported <= |s.winners| + 1
            && (s.wraps == 0 <==> |s.winners| <= reported + 2 * BATCH + 2)
  {
    var s := Run(locked, schedule);
    RunHolds(locked, schedule);
    AlternatingWins(s.winners);
    Account(Sum(s.samples) + s.nrPingpongs, |s.winners|, Wins(s.winners, Even), if s.even.pc.Counting? then 1 else 0,
            s.even.nr, s.publishes, s.wraps);
  }

  /** The arithmetic of the count: wins of the even thread, one of them perhaps not counted yet. */
  lemma Account(reported: nat, handovers: nat, wins: nat, uncounted: nat, nr: nat, publishes: nat, wraps: nat)
    requires handovers <= 2 * wins <= handovers + 1 && uncounted <= 1 && nr <= BATCH
    requires nr + BATCH * publishes == wins - uncounted
    requires reported + WORD * wraps == 2 * BATCH * publishes
    ensures reported <= handovers + 1
    ensures wraps == 0 <==> handovers <= reported + 2 * BATCH + 2
  {}

  // ----- the counter wraps exactly if the even thread publishes too often between two samples

  /** 20000 times this is the last count below 2^32. */
  const PUBLISH_LIMIT: nat := 214748

  /** How often the even thread has published since main's last sample. */
  function Since(locked: bool, schedule: seq<Action>): nat {
    if schedule == [] then 0
    else
      var before, a := schedule[..|schedule| - 1], schedule[|schedule| - 1];
      if a.Sample? then 0
      else if a == Thread(Even) && Run(locked, before).even.pc.Publishing? then Since(locked, before) + 1
      else Since(locked, before)
  }

  /** Between two samples the even thread publishes at most 214748 times. */
  ghost predicate SampledOftenEnough(locked: bool, schedule: seq<Action>) {
    forall k | 0 <= k <= |schedule| :: Since(locked, schedule[..k]) <= PUBLISH_LIMIT
  }

  /** Only publishing touches the shared counter. */
  lemma CounterOfStep(locked: bool, s: State, who: Who)
    requires ThreadStep(locked, s, who).Some?
    ensures var s' := ThreadStep(locked, s, who).value;
            if Get(s, who).pc.Publishing?
            then var sum := s.nrPingpongs + 2 * Get(s, who).nr;
                 s'.nrPingpongs == sum % WORD && s'.wraps == s.wraps + sum / WORD
            else s'.nrPingpongs == s.nrPingpongs && s'.wraps == s.wraps
  {
    match who
    case Even =>
    case Odd =>
  }

  lemma CounterOfAction(locked: bool, s: State, a: Action, s': State)
    requires Invariant(s) && s' == match Step(locked, s, a) case Some(v) => v case None => s
    ensures s'.wraps ==
              s.wraps + (if a == Thread(Even) && s.even.pc.Publishing? then (s.nrPingpongs + 2 * BATCH) / WORD else 0)
    ensures s'.nrPingpongs == if a.Sample? then 0
                              else if a == Thread(Even) && s.even.pc.Publishing? then (s.nrPingpongs + 2 * BATCH) % WORD
                              else s.nrPingpongs
  {
    if a.Thread? && ThreadStep(locked, s, a.who).Some? {
      CounterOfStep(locked, s, a.who);
    }
  }

  /** One action: the counter and its wraps go with the publications since the last sample. */
  lemma SinceStep(locked: bool, before: seq<Action>, a: Action)
    requires Run(locked, before).wraps == 0 && Run(locked, before).nrPingpongs == 2 * BATCH * Since(locked, before)
    ensures var longer := before + [a];
            Run(locked, longer).wraps == 0 <==>
              Since(locked, longer) <= PUBLISH_LIMIT || Since(locked, longer) == Since(locked, before)
    ensures var longer := before + [a];
            Run(locked, longer).wraps == 0 ==> Run(locked, longer).nrPingpongs == 2 * BATCH * Since(locked, longer)
  {
    var longer := before + [a];
    var s, s' := Run(locked, before), Run(locked, longer);
    var publishing := a == Thread(Even) && s.even.pc.Publishing?;
    RunHolds(locked, before);
    LastAction(locked, before, a);
    CounterOfAction(locked, s, a, s');
    SinceCounts(s.nrPingpongs, Since(locked, before), publishing, a.Sample?, s'.nrPingpongs, s'.wraps,
                Since(locked, longer));
  }

  lemma LastAction(locked: bool, before: seq<Action>, a: Action)
    ensures var s := Run(locked, before);
            Run(locked, before + [a]) == match Step(locked, s, a) case Some(v) => v case None => s
    ensures Since(locked, before + [a]) ==
            if a.Sample? then 0
            else if a == Thread(Even) && Run(locked, before).even.pc.Publishing? then Since(locked, before) + 1
            else Since(locked, before)
  {
    assert (before + [a])[..|before|] == before;
  }

  /** The same in numbers. */
  lemma SinceCounts(nr: nat, since: nat, publishing: bool, sampled: bool, nr': nat, wraps': nat, since': nat)
    requires nr == 2 * BATCH * since && nr < WORD && !(publishing && sampled)
    requires wraps' == if publishing then (nr + 2 * BATCH) / WORD else 0
    requires nr' == if sampled then 0 else if publishing then (nr + 2 * BATCH) % WORD else nr
    requires since' == if sampled then 0 else if publishing then since + 1 else since
    ensures wraps' == 0 <==> since' <= PUBLISH_LIMIT || since' == since
    ensures wraps' == 0 ==> nr' == 2 * BATCH * since'
  {
    if publishing {
      SinceWraps(nr, since);
    }
  }

  lemma SinceWraps(nr: nat, since: nat)
    requires nr == 2 * BATCH * since && nr < WORD
    ensures (nr + 2 * BATCH) / WORD == 0 <==> since + 1 <= PUBLISH_LIMIT
    ensures since + 1 <= PUBLISH_LIMIT ==> (nr + 2 * BATCH) % WORD == 2 * BATCH * (since + 1)
  {}

  lemma WrapsStay(locked: bool, before: seq<Action>, a: Action)
    requires 0 < Run(locked, before).wraps
    ensures 0 < Run(locked, before + [a]).wraps
  {
    assert (before + [a])[..|before|] == before;
    RunHolds(locked, before);
    CounterOfAction(locked, Run(locked, before), a, Run(locked, before + [a]));
  }

  lemma PrefixSampled(locked: bool, schedule: seq<Action>, n: nat)
    requires n <= |schedule| && SampledOftenEnough(locked, schedule)
    ensures SampledOftenEnough(locked, schedule[..n])
  {
    forall k | 0 <= k <= n
      ensures Since(locked, schedule[..n][..k]) <= PUBLISH_LIMIT
    {
      assert schedule[..n][..k] == schedule[..k];
    }
  }

  /** The 32-bit counter has never wrapped if and only if main has sampled often enough. */
  lemma {:induction false} NoWrapExactly(locked: bool, schedule: seq<Action>)
    ensures Run(locked, schedule).wraps == 0 <==> SampledOftenEnough(locked, schedule)
    ensures Run(locked, schedule).wraps == 0 ==>
              Run(locked, schedule).nrPingpongs == 2 * BATCH * Since(locked, schedule)
  {
    if schedule == [] {
      assert schedule[..0] == [];
    } else {
      var n := |schedule| - 1;
      var before, a := schedule[..n], schedule[n];
      assert schedule == before + [a];
      NoWrapExactly(locked, before);
      if Run(locked, before).wraps == 0 {
        assert Since(locked, before[..n]) <= PUBLISH_LIMIT;
        assert before[..n] == before;
        SinceStep(locked, before, a);
        SampledLonger(locked, before, a);
      } else {
        WrapsStay(locked, before, a);
        if SampledOftenEnough(locked, schedule) {
          PrefixSampled(locked, schedule, n);
        }
      }
    }
  }

  lemma SampledLonger(locked: bool, before: seq<Action>, a: Action)
    requires SampledOftenEnough(locked, before)
    ensures SampledOftenEnough(locked, before + [a]) <==> Since(locked, before + [a]) <= PUBLISH_LIMIT
  {
    var longer := before + [a];
    assert longer[..|longer|] == longer;
    if Since(locked, longer) <= PUBLISH_LIMIT {
      forall k | 0 <= k <= |longer|
        ensures Since(locked, longer[..k]) <= PUBLISH_LIMIT
      {
        if k <= |before| {
          assert longer[..k] == before[..k];
        } else {
          assert longer[..k] == longer;
        }
      }
    }
  }

  /** The reported count is within 20002 of the true handovers if and only if the even thread never
      publishes more than 214748 times between two samples. */
  lemma ReportIsCloseExactly(locked: bool, schedule: seq<Action>)
    ensures var s := Run(locked, schedule);
            |s.winners| <= Sum(s.samples) + s.nrPingpongs + 2 * BATCH + 2 <==> SampledOftenEnough(locked, schedule)
  {
    CollectedBracketsHandovers(locked, schedule);
    NoWrapExactly(locked, schedule);
  }

  // ----- and it can wrap

  lemma RunMore(locked: bool, schedule: seq<Action>, a: Action, s: State) returns (more: seq<Action>, s': State)
    requires s == Run(locked, schedule) && Step(locked, s, a).Some?
    ensures more == schedule + [a] && s' == Step(locked, s, a).value == Run(locked, more)
  {
    more := schedule + [a];
    assert more[..|schedule|] == schedule;
    s' := Step(locked, s, a).value;
  }

  /** Both threads are in front of their loops, main has not sampled, and it is this thread's turn. */
  ghost predicate Looping(s: State, who: Who) {
    s.even.pc.Testing? && s.odd.pc.Testing? && s.word == Some(Me(who)) && !s.stop && s.samples == []
  }

  lemma EvenAsleep(locked: bool) returns (schedule: seq<Action>)
    ensures Run(locked, schedule) == START.(even := Local(Sleeping, 0), word := Some(0), waitForBuddy := false)
  {
    var s := START;
    schedule, s := RunMore(locked, [], Thread(Even), s);
    schedule, s := RunMore(locked, schedule, Thread(Even), s);
    schedule, s := RunMore(locked, schedule, Thread(Even), s);
  }

  lemma OddThrough(locked: bool, before: seq<Action>) returns (schedule: seq<Action>)
    requires Run(locked, before) == START.(even := Local(Sleeping, 0), word := Some(0), waitForBuddy := false)
    ensures Run(locked, schedule) == START.(even := Local(Woken, 0), odd := Local(Testing, 0), word := Some(0))
  {
    var s := Run(locked, before);
    schedule, s := RunMore(locked, before, Thread(Odd), s);
    schedule, s := RunMore(locked, schedule, Thread(Odd), s);
    assert s.odd == Local(Deciding, 0) && !s.waitForBuddy;
    schedule, s := RunMore(locked, schedule, Thread(Odd), s);
    assert s.odd == Local(Leaving, 0) && s.even == Local(Woken, 0);
    schedule, s := RunMore(locked, schedule, Thread(Odd), s);
  }

  lemma BothLoop(locked: bool) returns (schedule: seq<Action>)
    ensures Looping(Run(locked, schedule), Even) && Run(locked, schedule).winners == []
  {
    schedule := EvenAsleep(locked);
    schedule := OddThrough(locked, schedule);
    var s := Run(locked, schedule);
    schedule, s := RunMore(locked, schedule, Thread(Even), s);
    schedule, s := RunMore(locked, schedule, Thread(Even), s);
  }

  /** A thread whose turn it is can win. */
  lemma OneWin(locked: bool, schedule: seq<Action>, who: Who) returns (more: seq<Action>)
    requires Looping(Run(locked, schedule), who)
    ensures Looping(Run(locked, more), Buddy(who)) && |Run(locked, more).winners| == |Run(locked, schedule).winners| + 1
  {
    var s := Run(locked, schedule);
    more, s := RunMore(locked, schedule, Thread(who), s);
    more := OneExchange(locked, more, who, s);
    HandoverLoops(s, who);
    more := OneCount(locked, more, who);
  }

  /** With either exchange, the thread hands the word over. */
  lemma OneExchange(locked: bool, schedule: seq<Action>, who: Who, s: State) returns (more: seq<Action>)
    requires s == Run(locked, schedule) && Get(s, who).pc.Trying? && s.word == Some(Me(who))
    ensures Run(locked, more) == Handover(s, who)
  {
    var s1;
    more, s1 := RunMore(locked, schedule, Thread(who), s);
    if !locked {
      more, s1 := RunMore(locked, more, Thread(who), s1);
    }
  }

  lemma HandoverLoops(s: State, who: Who)
    requires Looping(Goto(s, who, Testing), who)
    ensures Get(Handover(s, who), who).pc.Counting? && Looping(Goto(Handover(s, who), who, Testing), Buddy(who))
    ensures |Handover(s, who).winners| == |s.winners| + 1
  {}

  lemma OneCount(locked: bool, schedule: seq<Action>, who: Who) returns (more: seq<Action>)
    requires var s := Run(locked, schedule);
             Get(s, who).pc.Counting? && Looping(Goto(s, who, Testing), Buddy(who))
    ensures Looping(Run(locked, more), Buddy(who)) && Run(locked, more).winners == Run(locked, schedule).winners
  {
    var s := Run(locked, schedule);
    more, s := RunMore(locked, schedule, Thread(who), s);
    if Get(s, who).pc.Publishing? {
      more, s := RunMore(locked, more, Thread(who), s);
    }
  }

  lemma {:induction false} ManyRounds(locked: bool, n: nat) returns (schedule: seq<Action>)
    ensures Looping(Run(locked, schedule), Even) && |Run(locked, schedule).winners| == 2 * n
  {
    if n == 0 {
      schedule := BothLoop(locked);
    } else {
      schedule := ManyRounds(locked, n - 1);
      schedule := OneWin(locked, schedule, Even);
      schedule := OneWin(locked, schedule, Odd);
    }
  }

  /** There are runs in which the counter wraps, and the report falls short of the true handovers. */
  lemma CounterCanWrap(locked: bool) returns (schedule: seq<Action>)
    ensures var s := Run(locked, schedule);
            0 < s.wraps && !SampledOftenEnough(locked, schedule)
            && Sum(s.samples) + s.nrPingpongs + 2 * BATCH + 2 < |s.winners|
  {
    schedule := ManyRounds(locked, BATCH * (PUBLISH_LIMIT + 1));
    var s := Run(locked, schedule);
    RunHolds(locked, schedule);
    AlternatingWins(s.winners);
    TooMuch(s.even.nr, s.publishes, s.nrPingpongs, s.wraps);
    ReportIsCloseExactly(locked, schedule);
    NoWrapExactly(locked, schedule);
  }

  lemma TooMuch(nr: nat, publishes: nat, pending: nat, wraps: nat)
    requires nr + BATCH * publishes == BATCH * (PUBLISH_LIMIT + 1) && nr < BATCH
    requires pending < WORD && pending + WORD * wraps == 2 * BATCH * publishes
    ensures 0 < wraps
  {}

  // ----- load then store refines compare-and-swap

  /** A thread between its load and its store looks as if it had not tried yet. */
  function Before(l: Local): Local { if l.pc.Storing? then l.(pc := Trying) else l }

  function Abstract(s: State): State { s.(even := Before(s.even), odd := Before(s.odd)) }

  /** The store is the moment of the exchange. */
  lemma StoreRefines(s: State, who: Who)
    requires Invariant(s) && Get(s, who).pc.Storing?
    ensures ThreadStep(true, Abstract(s), who) == Some(Abstract(ThreadStep(false, s, who).value))
  {
  }

  lemma AbstractPut(s: State, who: Who, l: Local)
    ensures Abstract(Put(s, who, l)) == Put(Abstract(s), who, Before(l))
    ensures Get(Abstract(s), who) == Before(Get(s, who)) && Abstract(s).word == s.word
  {}

  lemma TryingRefines(s: State, who: Who)
    requires Get(s, who).pc.Trying?
    ensures var s' := ThreadStep(false, s, who).value;
            Abstract(s') == Abstract(s) || ThreadStep(true, Abstract(s), who) == Some(Abstract(s'))
  {
    AbstractPut(s, who, Get(s, who).(pc := Storing));
    AbstractPut(s, who, Get(s, who).(pc := Testing));
    if s.word == Some(Me(who)) {
      assert Put(Abstract(s), who, Get(Abstract(s), who)) == Abstract(s);
    }
  }

  lemma MoveRefines(s: State, who: Who)
    requires var pc := Get(s, who).pc; pc.Locking? || pc.Woken? || pc.Leaving? || pc.Testing?
    requires ThreadStep(false, s, who).Some?
    ensures ThreadStep(true, Abstract(s), who) == Some(Abstract(ThreadStep(false, s, who).value))
  {
    match who
    case Even =>
    case Odd =>
  }

  lemma OtherStepsRefine(s: State, who: Who)
    requires var pc := Get(s, who).pc; pc.Mapping? || pc.Counting? || pc.Publishing?
    ensures ThreadStep(true, Abstract(s), who) == Some(Abstract(ThreadStep(false, s, who).value))
  {
    match who
    case Even =>
    case Odd =>
  }

  lemma DecidingRefines(s: State, who: Who)
    requires Get(s, who).pc.Deciding?
    ensures ThreadStep(true, Abstract(s), who) == Some(Abstract(ThreadStep(false, s, who).value))
  {}

  lemma StepRefines(s: State, a: Action)
    requires Invariant(s) && Step(false, s, a).Some?
    ensures var s' := Step(false, s, a).value;
            Abstract(s') == Abstract(s) || Step(true, Abstract(s), a) == Some(Abstract(s'))
  {
    match a
    case Thread(who) =>
      if Get(s, who).pc.Storing? {
        StoreRefines(s, who);
      } else if Get(s, who).pc.Deciding? {
        DecidingRefines(s, who);
      } else if Get(s, who).pc.Trying? {
        TryingRefines(s, who);
      } else if Get(s, who).pc.Locking? || Get(s, who).pc.Woken? || Get(s, who).pc.Leaving? || Get(s, who).pc.Testing? {
        MoveRefines(s, who);
      } else {
        OtherStepsRefine(s, who);
      }
    case Sample =>
    case Stop =>
    case Spurious(who) =>
  }

  /** Every run with the unlocked exchange is a run with compare-and-swap: there is a schedule that
      leads to the same state, with the same winners, samples and counts. */
  lemma {:induction false} UnlockedRefinesLocked(schedule: seq<Action>) returns (locked: seq<Action>)
    ensures Abstract(Run(false, schedule)) == Run(true, locked)
    ensures Run(false, schedule).winners == Run(true, locked).winners
    ensures Run(false, schedule).samples == Run(true, locked).samples
  {
    if schedule == [] {
      locked := [];
    } else {
      var n := |schedule| - 1;
      locked := UnlockedRefinesLocked(schedule[..n]);
      var s := Run(false, schedule[..n]);
      if Step(false, s, schedule[n]).Some? {
        RunHolds(false, schedule[..n]);
        StepRefines(s, schedule[n]);
        if Abstract(Run(false, schedule)) != Abstract(s) {
          var longer := locked + [schedule[n]];
          assert longer[..|locked|] == locked;
          locked := longer;
        }
      }
    }
  }
}
