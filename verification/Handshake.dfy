/** The sample handshake of multiload (multichase/multiload.c): main asks every thread for a sample
    and collects one non-zero count from each; load threads publish one rate per request, chase
    threads add to their count all the time. One step is one access to a shared field. */
module Handshake {
  import opened Wrappers
  import opened Numbers

  /** A load thread with the rates it will measure, one after the other, in whole MiB/s; or a
      chase thread with the number of loads it adds per round. */
  datatype Kind = Load(rates: nat -> nat) | Chase(loads: nat)

  /** nrSamples is the number asked for plus one; 1 means that sampling never ends. */
  datatype Config = Config(kinds: seq<Kind>, nrSamples: nat)

  datatype Pc = Working | Reading | Comparing | Checking | Adding | Updating

  /** A thread: its local variables, its two shared fields sampleNo and count, and as history what
      it has published (for which sample), what it has added, and what main has collected from it.
      cur is None while cur_sample is still -1. */
  datatype ThreadState = ThreadState(
    pc: Pc, cur: Option<nat>, nxt: nat, sampleNo: nat, count: nat,
    published: seq<(nat, nat)>, added: nat, collected: seq<nat>)

  datatype MainPc = Requesting(sample: nat, i: nat) | Collecting(sample: nat, i: nat) | Done(samples: nat)

  datatype State = State(main: MainPc, threads: seq<ThreadState>)

  datatype Actor = Main | Thread(i: nat)

  const FRESH := ThreadState(Working, None, 0, 0, 0, [], 0, [])

  function Start(c: Config): State {
    State(Requesting(0, 0), seq(|c.kinds|, _ => FRESH))
  }

  // ----- steps

  /** LOAD_MEMORY_SAMPLE_MIBPS */
  function LoadStep(rates: nat -> nat, t: ThreadState): ThreadState {
    match t.pc
    case Working => t.(pc := Reading)
    case Reading => t.(nxt := t.sampleNo, pc := Comparing)
    case Comparing => t.(pc := if t.cur != Some(t.nxt) then Checking else Working)
    case Checking => t.(pc := if t.count == 0 then Adding else Working)
    case Adding =>
      var rate := rates(|t.published|);
      t.(count := t.count + rate, added := t.added + rate, published := t.published + [(t.nxt, rate)], pc := Updating)
    case Updating => t.(cur := Some(t.nxt), pc := Working)
  }

  function ThreadStep(kind: Kind, t: ThreadState): ThreadState {
    match kind
    case Load(rates) => LoadStep(rates, t)
    case Chase(loads) => t.(count := t.count + loads, added := t.added + loads)
  }

  /** Main takes the count of thread i and leaves zero; it tries again while it gets nothing. */
  function Collect(s: State, i: nat): State
    requires i < |s.threads| && s.main.Collecting?
  {
    var t := s.threads[i];
    if t.count == 0 then s
    else State(Collecting(s.main.sample, i + 1), s.threads[i := t.(count := 0, collected := t.collected + [t.count])])
  }

  function MainStep(c: Config, s: State): State
    requires |s.threads| == |c.kinds|
  {
    match s.main
    case Requesting(k, i) =>
      if i < |s.threads| then State(Requesting(k, i + 1), s.threads[i := s.threads[i].(sampleNo := k)])
      else s.(main := Collecting(k, 0))
    case Collecting(k, i) =>
      if i < |s.threads| then Collect(s, i)
      else s.(main := if c.nrSamples == 1 || k + 1 < c.nrSamples then Requesting(k + 1, 0) else Done(k + 1))
    case Done(_) => s
  }

  function Step(c: Config, s: State, a: Actor): (r: State)
    requires |s.threads| == |c.kinds|
    ensures |r.threads| == |c.kinds|
  {
    match a
    case Main => MainStep(c, s)
    case Thread(i) => if i < |s.threads| then s.(threads := s.threads[i := ThreadStep(c.kinds[i], s.threads[i])]) else s
  }

  function RunFrom(c: Config, s: State, schedule: seq<Actor>): (r: State)
    requires |s.threads| == |c.kinds|
    ensures |r.threads| == |c.kinds|
  {
    if schedule == [] then s
    else Step(c, RunFrom(c, s, schedule[..|schedule| - 1]), schedule[|schedule| - 1])
  }

  function Run(c: Config, schedule: seq<Actor>): (s: State)
    ensures |s.threads| == |c.kinds|
  {
    RunFrom(c, Start(c), schedule)
  }

  // ----- what holds in every state

  /** The sample that thread j has been asked for last; a fresh thread finds a zero. */
  function Requested(main: MainPc, j: nat): nat {
    match main
    case Requesting(k, i) => if j < i || k == 0 then k else k - 1
    case Collecting(k, _) => k
    case Done(k) => if k == 0 then 0 else k - 1
  }

  /** How many samples main has collected from thread j. */
  function Collected(main: MainPc, j: nat): nat {
    match main
    case Requesting(k, _) => k
    case Collecting(k, i) => if j < i then k + 1 else k
    case Done(k) => k
  }

  function Finished(t: ThreadState): nat {
    match t.cur case None => 0 case Some(x) => x + 1
  }

  /** What is published: value number m was published for sample m. */
  ghost predicate PublishedOk(rates: nat -> nat, t: ThreadState) {
    forall m | 0 <= m < |t.published| :: t.published[m] == (m, rates(m))
  }

  /** What is collected: each published value once, in order, and never a zero. */
  ghost predicate CollectedOk(t: ThreadState) {
    |t.collected| <= |t.published| <= |t.collected| + 1
    && (forall m | 0 <= m < |t.collected| :: t.collected[m] == t.published[m].1 && 0 < t.collected[m])
    && t.count == if |t.published| == |t.collected| then 0 else t.published[|t.collected|].1
  }

  /** How far the load thread is with its current round. */
  ghost predicate ProgressOk(t: ThreadState) {
    |t.published| == Finished(t) + (if t.pc.Updating? then 1 else 0)
    && |t.published| <= t.sampleNo + 1
    && t.sampleNo <= |t.collected| <= t.sampleNo + 1
    && (t.pc.Comparing? ==> t.nxt <= t.sampleNo && Finished(t) <= t.nxt + 1)
    && (t.pc.Checking? || t.pc.Adding? || t.pc.Updating? ==> t.nxt == Finished(t))
    && (t.pc.Checking? || t.pc.Adding? ==> t.nxt == t.sampleNo)
  }

  ghost predicate LoadOk(rates: nat -> nat, t: ThreadState) {
    PublishedOk(rates, t) && CollectedOk(t) && ProgressOk(t)
  }

  ghost predicate ThreadOk(kind: Kind, main: MainPc, j: nat, t: ThreadState) {
    t.sampleNo == Requested(main, j) && |t.collected| == Collected(main, j)
    && Sum(t.collected) + t.count == t.added
    && (forall m | 0 <= m < |t.collected| :: 0 < t.collected[m])
    && (kind.Load? ==> LoadOk(kind.rates, t))
    && (kind == Chase(0) ==> t.count == 0 && t.collected == [])
  }

  ghost predicate MainOk(c: Config, main: MainPc) {
    match main
    case Requesting(k, i) => i <= |c.kinds| && (1 < c.nrSamples ==> k < c.nrSamples)
    case Collecting(k, i) => i <= |c.kinds| && (1 < c.nrSamples ==> k < c.nrSamples)
    case Done(k) => c.nrSamples != 1 && 0 < k && c.nrSamples <= k && (1 < c.nrSamples ==> k == c.nrSamples)
  }

  ghost predicate Invariant(c: Config, s: State) {
    |s.threads| == |c.kinds| && MainOk(c, s.main)
    && forall j | 0 <= j < |s.threads| :: ThreadOk(c.kinds[j], s.main, j, s.threads[j])
  }

  lemma LoadStepKeeps(rates: nat -> nat, t: ThreadState)
    requires LoadOk(rates, t)
    ensures LoadOk(rates, LoadStep(rates, t))
    ensures var r := LoadStep(rates, t);
            r.collected == t.collected && r.sampleNo == t.sampleNo && r.count - t.count == r.added - t.added
  {}

  lemma CollectKeeps(kind: Kind, s: State, i: nat)
    requires i < |s.threads| && s.main.Collecting? && s.main.i == i && s.threads[i].count != 0
    requires ThreadOk(kind, s.main, i, s.threads[i])
    ensures ThreadOk(kind, Collect(s, i).main, i, Collect(s, i).threads[i])
  {
    SumMore(s.threads[i].collected, s.threads[i].count);
  }

  lemma MainStepKeeps(c: Config, s: State)
    requires Invariant(c, s)
    ensures Invariant(c, MainStep(c, s))
  {
    var s' := MainStep(c, s);
    forall j | 0 <= j < |s.threads|
      ensures ThreadOk(c.kinds[j], s'.main, j, s'.threads[j])
    {
      assert ThreadOk(c.kinds[j], s.main, j, s.threads[j]);
      if s.main.Collecting? && s.main.i == j && s.threads[j].count != 0 {
        CollectKeeps(c.kinds[j], s, j);
      } else if s'.threads[j] == s.threads[j] {
        assert s'.main != s.main ==> Requested(s'.main, j) == Requested(s.main, j) || s.main.Requesting?;
      }
    }
  }

  lemma StepKeeps(c: Config, s: State, a: Actor)
    requires Invariant(c, s)
    ensures Invariant(c, Step(c, s, a))
  {
    match a
    case Main => MainStepKeeps(c, s);
    case Thread(i) =>
      if i < |s.threads| {
        assert ThreadOk(c.kinds[i], s.main, i, s.threads[i]);
        if c.kinds[i].Load? {
          LoadStepKeeps(c.kinds[i].rates, s.threads[i]);
        }
      }
  }

  lemma {:induction false} RunFromHolds(c: Config, s: State, schedule: seq<Actor>)
    requires Invariant(c, s)
    ensures Invariant(c, RunFrom(c, s, schedule))
  {
    if schedule != [] {
      var n := |schedule| - 1;
      RunFromHolds(c, s, schedule[..n]);
      StepKeeps(c, RunFrom(c, s, schedule[..n]), schedule[n]);
    }
  }

  lemma RunHolds(c: Config, schedule: seq<Actor>)
    ensures Invariant(c, Run(c, schedule))
  {
    RunFromHolds(c, Start(c), schedule);
  }

  // ----- exactly once

  /** In every run, main has collected from each load thread exactly one value per sample: the one
      that the thread published for that sample. At most one more is published and waiting. */
  lemma DeliveredExactlyOnce(c: Config, schedule: seq<Actor>, j: nat, k: nat)
    requires j < |c.kinds| && c.kinds[j].Load?
    requires k < |Run(c, schedule).threads[j].collected|
    ensures var t := Run(c, schedule).threads[j];
            |t.collected| == Collected(Run(c, schedule).main, j)
            && k < |t.published| <= |t.collected| + 1
            && t.published[k] == (k, t.collected[k])
            && t.collected[k] == c.kinds[j].rates(k)
            && forall m | 0 <= m < |t.published| :: t.published[m].0 == k ==> m == k
  {
    RunHolds(c, schedule);
    var s := Run(c, schedule);
    assert ThreadOk(c.kinds[j], s.main, j, s.threads[j]);
  }

  /** In every run, nothing that a thread adds is lost or counted twice, chase threads included. */
  lemma NothingLost(c: Config, schedule: seq<Actor>, j: nat)
    requires j < |c.kinds|
    ensures var t := Run(c, schedule).threads[j];
            Sum(t.collected) + t.count == t.added
  {
    RunHolds(c, schedule);
    var s := Run(c, schedule);
    assert ThreadOk(c.kinds[j], s.main, j, s.threads[j]);
  }

  /** A finished run has one value from every thread for every sample, and no more than were asked for. */
  lemma FinishedRunIsFull(c: Config, schedule: seq<Actor>, j: nat)
    requires j < |c.kinds| && Run(c, schedule).main.Done? && 0 < c.nrSamples
    ensures 1 < c.nrSamples == Run(c, schedule).main.samples == |Run(c, schedule).threads[j].collected|
  {
    RunHolds(c, schedule);
    var s := Run(c, schedule);
    assert ThreadOk(c.kinds[j], s.main, j, s.threads[j]);
  }

  /** In every run, a load thread that has seen a new request finds its count at zero: the second
      half of its test never fails. */
  lemma CountIsZeroOnRequest(c: Config, schedule: seq<Actor>, j: nat)
    requires j < |c.kinds| && c.kinds[j].Load? && Run(c, schedule).threads[j].pc.Checking?
    ensures Run(c, schedule).threads[j].count == 0
  {
    RunHolds(c, schedule);
    var s := Run(c, schedule);
    assert ThreadOk(c.kinds[j], s.main, j, s.threads[j]);
  }

  // ----- main gets its sample exactly if the rate does not truncate to zero

  ghost predicate Waiting(s: State, k: nat, i: nat) {
    s.main == Collecting(k, i) && i < |s.threads| && s.threads[i].count == 0
  }

  /** How many steps of its own a load thread needs at most before its count is set. */
  function Distance(t: ThreadState): nat {
    match t.pc
    case Adding => 1
    case Checking => 2
    case Comparing => if t.cur != Some(t.nxt) then 3 else 6
    case Reading => 4
    case Working => 5
    case Updating => 6
  }

  /** Whether the thread will have something non-zero for sample k. */
  predicate Delivers(kind: Kind, k: nat) {
    match kind case Load(rates) => 0 < rates(k) case Chase(loads) => 0 < loads
  }

  /** The count of thread i for sample k is there for main to take, or taken already. */
  ghost predicate Served(s: State, k: nat, i: nat) {
    i < |s.threads|
    && ((s.main == Collecting(k, i) && s.threads[i].count != 0) || k < |s.threads[i].collected|)
  }

  /** While main waits, the thread it waits for gets closer with every step of its own. */
  lemma OwnStepDescends(c: Config, s: State, k: nat, i: nat)
    requires Invariant(c, s) && Waiting(s, k, i) && Delivers(c.kinds[i], k)
    ensures var s' := Step(c, s, Thread(i));
            Served(s', k, i) || (Waiting(s', k, i) && Distance(s'.threads[i]) < Distance(s.threads[i]))
  {
    var t := s.threads[i];
    assert ThreadOk(c.kinds[i], s.main, i, t);
  }

  lemma ServedStays(c: Config, s: State, k: nat, i: nat, a: Actor)
    requires |s.threads| == |c.kinds| && Served(s, k, i)
    requires s.main == Collecting(k, i) ==> |s.threads[i].collected| == k
    ensures Served(Step(c, s, a), k, i)
  {}

  function Turns(schedule: seq<Actor>, i: nat): nat {
    if schedule == [] then 0
    else Turns(schedule[..|schedule| - 1], i) + if schedule[|schedule| - 1] == Thread(i) then 1 else 0
  }

  /** Main waits for a thread that has something to deliver no longer than six steps of that
      thread, whatever the others do in the meantime. */
  lemma {:induction false} WaitIsBounded(c: Config, s: State, k: nat, i: nat, more: seq<Actor>)
    requires Invariant(c, s) && Waiting(s, k, i) && Delivers(c.kinds[i], k)
    ensures var s' := RunFrom(c, s, more);
            Served(s', k, i)
            || (Waiting(s', k, i) && Turns(more, i) + Distance(s'.threads[i]) <= Distance(s.threads[i]))
    ensures 6 <= Turns(more, i) ==> Served(RunFrom(c, s, more), k, i)
  {
    if more != [] {
      var n := |more| - 1;
      WaitIsBounded(c, s, k, i, more[..n]);
      RunFromHolds(c, s, more[..n]);
      var r := RunFrom(c, s, more[..n]);
      assert ThreadOk(c.kinds[i], r.main, i, r.threads[i]);
      if Served(r, k, i) {
        ServedStays(c, r, k, i, more[n]);
      } else if more[n] == Thread(i) {
        OwnStepDescends(c, r, k, i);
      }
    }
  }

  /** In every run: from a thread that has a zero for sample k, main never gets sample k. */
  lemma ZeroRateBlocks(c: Config, schedule: seq<Actor>, k: nat, i: nat)
    requires i < |c.kinds| && !Delivers(c.kinds[i], k)
    ensures |Run(c, schedule).threads[i].collected| <= k
    ensures Run(c, schedule).main.Done? ==> Run(c, schedule).main.samples <= k
  {
    RunHolds(c, schedule);
    var s := Run(c, schedule);
    var t := s.threads[i];
    assert ThreadOk(c.kinds[i], s.main, i, t);
  }

  // ----- sampling ends exactly if all rates that are asked for are at least one

  lemma {:induction false} RunFromAppend(c: Config, s: State, a: seq<Actor>, b: seq<Actor>)
    requires |s.threads| == |c.kinds|
    ensures RunFrom(c, s, a + b) == RunFrom(c, RunFrom(c, s, a), b)
    decreases |b|
  {
    if b == [] {
      assert a + b == a;
    } else {
      var n := |b| - 1;
      RunFromAppend(c, s, a, b[..n]);
      assert (a + b)[..|a + b| - 1] == a + b[..n];
    }
  }

  function SixTurns(i: nat): seq<Actor> {
    [Thread(i), Thread(i), Thread(i), Thread(i), Thread(i), Thread(i)]
  }

  lemma SixTurnsAreSix(i: nat)
    ensures Turns(SixTurns(i), i) == 6
  {
    var s := SixTurns(i);
    assert s[..5][..4] == s[..4] && s[..4][..3] == s[..3] && s[..3][..2] == s[..2] && s[..2][..1] == s[..1];
    assert Turns(s[..1], i) == 1;
    assert Turns(s[..2], i) == 2;
    assert Turns(s[..3], i) == 3;
    assert Turns(s[..4], i) == 4;
    assert Turns(s[..5], i) == 5;
  }

  /** What main still has to do, largest first: samples, then phases, then threads. */
  function Outstanding(c: Config, main: MainPc): (nat, nat, nat) {
    match main
    case Requesting(k, i) =>
      (if k < c.nrSamples then c.nrSamples - k else 0, 2, if i < |c.kinds| then |c.kinds| - i else 0)
    case Collecting(k, i) =>
      (if k < c.nrSamples then c.nrSamples - k else 0, 1, if i < |c.kinds| then |c.kinds| - i else 0)
    case Done(_) => (0, 0, 0)
  }

  ghost predicate AllDeliver(c: Config) {
    forall j, k: nat | 0 <= j < |c.kinds| && k < c.nrSamples :: Delivers(c.kinds[j], k)
  }

  ghost predicate InRange(c: Config, main: MainPc) {
    match main
    case Requesting(k, _) => k < c.nrSamples
    case Collecting(k, _) => k < c.nrSamples
    case Done(_) => true
  }

  /** From every state that can be reached, sampling can be brought to its end. */
  lemma {:induction false} CanFinish(c: Config, s: State) returns (more: seq<Actor>)
    requires Invariant(c, s) && InRange(c, s.main) && 1 < c.nrSamples && AllDeliver(c)
    ensures RunFrom(c, s, more).main.Done?
    decreases Outstanding(c, s.main).0, Outstanding(c, s.main).1, Outstanding(c, s.main).2
  {
    if s.main.Done? {
      more := [];
      return;
    }
    var first := Advance(c, s);
    RunFromHolds(c, s, first);
    var rest := CanFinish(c, RunFrom(c, s, first));
    RunFromAppend(c, s, first, rest);
    more := first + rest;
  }

  ghost predicate Less(a: (nat, nat, nat), b: (nat, nat, nat)) {
    a.0 < b.0 || (a.0 == b.0 && (a.1 < b.1 || (a.1 == b.1 && a.2 < b.2)))
  }

  lemma Advance(c: Config, s: State) returns (more: seq<Actor>)
    requires Invariant(c, s) && InRange(c, s.main) && !s.main.Done? && 1 < c.nrSamples && AllDeliver(c)
    ensures InRange(c, RunFrom(c, s, more).main)
    ensures Less(Outstanding(c, RunFrom(c, s, more).main), Outstanding(c, s.main))
  {
    if s.main.Collecting? && s.main.i < |s.threads| && s.threads[s.main.i].count == 0 {
      var k, i := s.main.sample, s.main.i;
      assert Delivers(c.kinds[i], k);
      SixTurnsAreSix(i);
      WaitIsBounded(c, s, k, i, SixTurns(i));
      OnlyThreads(c, s, i);
      var r := RunFrom(c, s, SixTurns(i));
      RunFromHolds(c, s, SixTurns(i));
      assert ThreadOk(c.kinds[i], r.main, i, r.threads[i]);
      RunFromAppend(c, s, SixTurns(i), [Main]);
      OneStep(c, r, Main);
      more := SixTurns(i) + [Main];
    } else {
      OneStep(c, s, Main);
      more := [Main];
    }
  }

  lemma OneStep(c: Config, s: State, a: Actor)
    requires |s.threads| == |c.kinds|
    ensures RunFrom(c, s, [a]) == Step(c, s, a)
  {
    assert [a][..0] == [];
  }

  lemma {:induction false} ThreadsLeaveMain(c: Config, s: State, more: seq<Actor>)
    requires |s.threads| == |c.kinds| && forall a | a in more :: a.Thread?
    ensures RunFrom(c, s, more).main == s.main
  {
    if more != [] {
      ThreadsLeaveMain(c, s, more[..|more| - 1]);
      assert more[|more| - 1] in more;
    }
  }

  lemma OnlyThreads(c: Config, s: State, i: nat)
    requires |s.threads| == |c.kinds|
    ensures RunFrom(c, s, SixTurns(i)).main == s.main
  {
    ThreadsLeaveMain(c, s, SixTurns(i));
  }

  /** Sampling can end if and only if an end is asked for and no thread has a zero for any of the
      samples: no rate truncates to zero, and no chase adds nothing. */
  lemma FinishesIffAllDeliver(c: Config)
    requires 1 <= c.nrSamples
    ensures (exists schedule :: Run(c, schedule).main.Done?) <==> 1 < c.nrSamples && AllDeliver(c)
  {
    if 1 < c.nrSamples && AllDeliver(c) {
      RunHolds(c, []);
      var schedule := CanFinish(c, Start(c));
      assert Run(c, schedule).main.Done?;
    }
    if schedule :| Run(c, schedule).main.Done? {
      RunHolds(c, schedule);
      forall j, k: nat | 0 <= j < |c.kinds| && k < c.nrSamples
        ensures Delivers(c.kinds[j], k)
      {
        if !Delivers(c.kinds[j], k) {
          ZeroRateBlocks(c, schedule, k, j);
        }
      }
    }
  }
}
