/** Threads on a shared memory, each touching only addresses of its own: however their single
    accesses interleave, they leave the memory as if they had run one after the other. */
module Interleaving {
  import opened Memory
  import opened Accesses

  /** The local states of the threads, and the memory they share. */
  datatype World<+L> = World(locals: seq<L>, memory: Memory)

  /** Thread t makes its next access. */
  function Step<L>(prog: Program<L>, w: World<L>, t: nat): (r: World<L>)
    ensures |r.locals| == |w.locals|
  {
    if t < |w.locals| then
      var (l, m) := Perform(prog, w.locals[t], w.memory);
      World(w.locals[t := l], m)
    else w
  }

  /** The world after the threads have moved in the order of the schedule. */
  function Run<L>(prog: Program<L>, w: World<L>, schedule: seq<nat>): (r: World<L>)
    ensures |r.locals| == |w.locals|
  {
    if schedule == [] then w
    else Step(prog, Run(prog, w, schedule[..|schedule| - 1]), schedule[|schedule| - 1])
  }

  function Turns(schedule: seq<nat>, t: nat): nat {
    if schedule == [] then 0
    else Turns(schedule[..|schedule| - 1], t) + if schedule[|schedule| - 1] == t then 1 else 0
  }

  /** No address has two owners. */
  ghost predicate Disjoint(owned: seq<set<nat>>) {
    forall t, u | 0 <= t < u < |owned| :: owned[t] !! owned[u]
  }

  /** Two memories that agree on these addresses. */
  ghost predicate Agree(own: set<nat>, m: Memory, w: Memory) {
    w.base == m.base && |w.bytes| == |m.bytes| && forall a | a in own && m.Has(a, 1) :: w.Byte(a) == m.Byte(a)
  }

  /** Two memories that agree on all other addresses. */
  ghost predicate AgreeOutside(own: set<nat>, m: Memory, w: Memory) {
    w.base == m.base && |w.bytes| == |m.bytes| && forall a: nat | a !in own && m.Has(a, 1) :: w.Byte(a) == m.Byte(a)
  }

  // ----- one access

  /** What an access does depends only on the addresses it touches. */
  lemma PerformAgrees<L>(prog: Program<L>, own: set<nat>, l: L, m: Memory, w: Memory)
    requires Allowed(own, prog.next(l)) && Agree(own, m, w)
    ensures Perform(prog, l, w).0 == Perform(prog, l, m).0
    ensures Agree(own, Perform(prog, l, m).1, Perform(prog, l, w).1)
  {
    match prog.next(l)
    case Read(p, n) =>
      if m.Has(p, n) {
        forall i | 0 <= i < n
          ensures w.Slice(p, n)[i] == m.Slice(p, n)[i]
        {
          assert w.Byte(p + i) == m.Byte(p + i);
        }
        assert w.Slice(p, n) == m.Slice(p, n);
      }
    case Write(p, bytes) =>
      if m.Has(p, |bytes|) {
        WrittenAt(m, p, bytes);
        WrittenAt(w, p, bytes);
      }
    case Skip =>
    case Halt =>
  }

  lemma PerformElsewhere<L>(prog: Program<L>, own: set<nat>, l: L, m: Memory)
    requires Allowed(own, prog.next(l))
    ensures AgreeOutside(own, m, Perform(prog, l, m).1)
  {
    match prog.next(l)
    case Write(p, bytes) =>
      if m.Has(p, |bytes|) {
        WrittenAt(m, p, bytes);
      }
    case Read(p, n) =>
    case Skip =>
    case Halt =>
  }

  // ----- one thread alone

  lemma {:induction false} AloneAgrees<L>(prog: Program<L>, own: set<nat>, l: L, m: Memory, w: Memory, steps: nat)
    requires Obeys(prog, own, l, m, steps) && Agree(own, m, w)
    ensures Alone(prog, l, w, steps).0 == Alone(prog, l, m, steps).0
    ensures Agree(own, Alone(prog, l, m, steps).1, Alone(prog, l, w, steps).1)
  {
    if steps != 0 {
      AloneAgrees(prog, own, l, m, w, steps - 1);
      assert Allowed(own, prog.next(Alone(prog, l, m, steps - 1).0));
      PerformAgrees(prog, own, Alone(prog, l, m, steps - 1).0, Alone(prog, l, m, steps - 1).1,
                    Alone(prog, l, w, steps - 1).1);
    }
  }

  lemma {:induction false} AloneElsewhere<L>(prog: Program<L>, own: set<nat>, l: L, m: Memory, steps: nat)
    requires Obeys(prog, own, l, m, steps)
    ensures AgreeOutside(own, m, Alone(prog, l, m, steps).1)
  {
    if steps != 0 {
      AloneElsewhere(prog, own, l, m, steps - 1);
      assert Allowed(own, prog.next(Alone(prog, l, m, steps - 1).0));
      PerformElsewhere(prog, own, Alone(prog, l, m, steps - 1).0, Alone(prog, l, m, steps - 1).1);
    }
  }

  /** After it has halted, a thread stays as it is. */
  lemma {:induction false} HaltedStays<L>(prog: Program<L>, l: L, m: Memory, k: nat, n: nat)
    requires k <= n && prog.next(Alone(prog, l, m, k).0).Halt?
    ensures Alone(prog, l, m, n) == Alone(prog, l, m, k)
  {
    if k < n {
      HaltedStays(prog, l, m, k, n - 1);
    }
  }

  lemma HaltedObeys<L(!new)>(prog: Program<L>, own: set<nat>, l: L, m: Memory, k: nat, n: nat)
    requires Obeys(prog, own, l, m, k) && prog.next(Alone(prog, l, m, k).0).Halt?
    ensures Obeys(prog, own, l, m, n)
  {
    forall j: nat | j < n
      ensures Allowed(own, prog.next(Alone(prog, l, m, j).0))
    {
      if k <= j {
        HaltedStays(prog, l, m, k, j);
      }
    }
  }

  // ----- all threads

  /** Every thread, run alone from the same memory, keeps to its own addresses. */
  ghost predicate AllObey<L(!new)>(prog: Program<L>, owned: seq<set<nat>>, w: World<L>) {
    |owned| == |w.locals| && Disjoint(owned)
    && forall t, n: nat | 0 <= t < |owned| :: Obeys(prog, owned[t], w.locals[t], w.memory, n)
  }

  /** In every interleaving, each thread is where it would be alone, and so are its addresses. */
  lemma {:induction false} EachAsIfAlone<L(!new)>(prog: Program<L>, owned: seq<set<nat>>, w: World<L>,
                                           schedule: seq<nat>, t: nat)
    requires AllObey(prog, owned, w) && t < |owned|
    ensures var r, k := Run(prog, w, schedule), Turns(schedule, t);
            r.locals[t] == Alone(prog, w.locals[t], w.memory, k).0
            && Agree(owned[t], Alone(prog, w.locals[t], w.memory, k).1, r.memory)
  {
    if schedule != [] {
      var n := |schedule| - 1;
      var before, u := schedule[..n], schedule[n];
      EachAsIfAlone(prog, owned, w, before, t);
      if u < |owned| {
        EachAsIfAlone(prog, owned, w, before, u);
        MoveKeepsPart(prog, owned, w, Run(prog, w, before), before, u, t);
      }
    }
  }

  lemma MoveKeepsPart<L(!new)>(prog: Program<L>, owned: seq<set<nat>>, w: World<L>, r: World<L>, before: seq<nat>,
                        u: nat, t: nat)
    requires AllObey(prog, owned, w) && t < |owned| && u < |owned| && |r.locals| == |w.locals|
    requires r.locals[t] == Alone(prog, w.locals[t], w.memory, Turns(before, t)).0
    requires Agree(owned[t], Alone(prog, w.locals[t], w.memory, Turns(before, t)).1, r.memory)
    requires r.locals[u] == Alone(prog, w.locals[u], w.memory, Turns(before, u)).0
    ensures var r', k := Step(prog, r, u), Turns(before, t) + (if u == t then 1 else 0);
            r'.locals[t] == Alone(prog, w.locals[t], w.memory, k).0
            && Agree(owned[t], Alone(prog, w.locals[t], w.memory, k).1, r'.memory)
  {
    assert Obeys(prog, owned[u], w.locals[u], w.memory, Turns(before, u) + 1);
    assert Allowed(owned[u], prog.next(r.locals[u]));
    if u == t {
      var (l, m) := Alone(prog, w.locals[t], w.memory, Turns(before, t));
      PerformAgrees(prog, owned[t], l, m, r.memory);
    } else {
      PerformElsewhere(prog, owned[u], r.locals[u], r.memory);
      assert owned[u] !! owned[t] by { assert u < t || t < u; }
    }
  }

  /** An address that belongs to no thread stays as it was. */
  lemma {:induction false} RestUntouched<L(!new)>(prog: Program<L>, owned: seq<set<nat>>, w: World<L>,
                                           schedule: seq<nat>, a: nat)
    requires AllObey(prog, owned, w) && w.memory.Has(a, 1) && forall t | 0 <= t < |owned| :: a !in owned[t]
    ensures var m := Run(prog, w, schedule).memory;
            m.base == w.memory.base && |m.bytes| == |w.memory.bytes| && m.Byte(a) == w.memory.Byte(a)
  {
    if schedule != [] {
      var n := |schedule| - 1;
      var before, u := schedule[..n], schedule[n];
      RestUntouched(prog, owned, w, before, a);
      if u < |owned| {
        EachAsIfAlone(prog, owned, w, before, u);
        assert Obeys(prog, owned[u], w.locals[u], w.memory, Turns(before, u) + 1);
        PerformElsewhere(prog, owned[u], Run(prog, w, before).locals[u], Run(prog, w, before).memory);
      }
    }
  }

  /** All threads have halted. */
  ghost predicate Complete<L>(prog: Program<L>, w: World<L>) {
    forall t | 0 <= t < |w.locals| :: prog.next(w.locals[t]).Halt?
  }

  /** One thread after the other: thread t halts with memory stages[t+1] when it starts with stages[t]. */
  ghost predicate Sequential<L(!new)>(prog: Program<L>, owned: seq<set<nat>>, starts: seq<L>, ends: seq<L>,
                               stages: seq<Memory>) {
    |owned| == |starts| == |ends| && |stages| == |starts| + 1 && Disjoint(owned)
    && forall t | 0 <= t < |starts| :: Stage(prog, owned, starts, ends, stages, t)
  }

  ghost predicate Stage<L(!new)>(prog: Program<L>, owned: seq<set<nat>>, starts: seq<L>, ends: seq<L>,
                          stages: seq<Memory>, t: nat)
    requires t < |owned| == |starts| == |ends| && |stages| == |starts| + 1
  {
    Reaches(prog, owned[t], starts[t], stages[t], ends[t], stages[t + 1]) && prog.next(ends[t]).Halt?
  }

  lemma StageElsewhere<L(!new)>(prog: Program<L>, owned: seq<set<nat>>, starts: seq<L>, ends: seq<L>,
                         stages: seq<Memory>, t: nat)
    requires Sequential(prog, owned, starts, ends, stages) && t < |starts|
    ensures AgreeOutside(owned[t], stages[t], stages[t + 1])
  {
    assert Stage(prog, owned, starts, ends, stages, t);
    var k: nat :| Alone(prog, starts[t], stages[t], k) == (ends[t], stages[t + 1])
                  && Obeys(prog, owned[t], starts[t], stages[t], k);
    AloneElsewhere(prog, owned[t], starts[t], stages[t], k);
  }

  /** The stages from i to j touch an address only if one of their threads owns it. */
  lemma {:induction false} StagesKeep<L(!new)>(prog: Program<L>, owned: seq<set<nat>>, starts: seq<L>, ends: seq<L>,
                                               stages: seq<Memory>, i: nat, j: nat, a: nat)
    requires Sequential(prog, owned, starts, ends, stages) && i <= j < |stages|
    requires stages[i].Has(a, 1) && forall t | i <= t < j :: a !in owned[t]
    ensures stages[j].base == stages[i].base && |stages[j].bytes| == |stages[i].bytes|
            && stages[j].Byte(a) == stages[i].Byte(a)
    decreases j
  {
    if i < j {
      StagesKeep(prog, owned, starts, ends, stages, i, j - 1, a);
      StageElsewhere(prog, owned, starts, ends, stages, j - 1);
    }
  }

  lemma {:induction false} SameShape<L(!new)>(prog: Program<L>, owned: seq<set<nat>>, starts: seq<L>, ends: seq<L>,
                                       stages: seq<Memory>, j: nat)
    requires Sequential(prog, owned, starts, ends, stages) && j < |stages|
    ensures stages[j].base == stages[0].base && |stages[j].bytes| == |stages[0].bytes|
  {
    if j != 0 {
      SameShape(prog, owned, starts, ends, stages, j - 1);
      StageElsewhere(prog, owned, starts, ends, stages, j - 1);
    }
  }

  /** What thread t finds at its own addresses is what was there at the start. */
  lemma StartsFresh<L(!new)>(prog: Program<L>, owned: seq<set<nat>>, starts: seq<L>, ends: seq<L>, stages: seq<Memory>,
                      t: nat)
    requires Sequential(prog, owned, starts, ends, stages) && t < |starts|
    ensures Agree(owned[t], stages[t], stages[0])
    ensures Agree(owned[t], stages[t + 1], stages[|starts|])
  {
    SameShape(prog, owned, starts, ends, stages, t);
    SameShape(prog, owned, starts, ends, stages, t + 1);
    SameShape(prog, owned, starts, ends, stages, |starts|);
    forall a | a in owned[t] && stages[0].Has(a, 1)
      ensures stages[t].Byte(a) == stages[0].Byte(a) && stages[|starts|].Byte(a) == stages[t + 1].Byte(a)
    {
      StagesKeep(prog, owned, starts, ends, stages, 0, t, a);
      StagesKeep(prog, owned, starts, ends, stages, t + 1, |starts|, a);
    }
  }

  /** Alone from the initial memory, too, thread t halts, and leaves at its own addresses what it
      leaves there in its turn. */
  lemma AloneFromStart<L(!new)>(prog: Program<L>, owned: seq<set<nat>>, starts: seq<L>, ends: seq<L>,
                         stages: seq<Memory>, t: nat)
    returns (k: nat)
    requires Sequential(prog, owned, starts, ends, stages) && t < |starts|
    ensures forall n: nat :: Obeys(prog, owned[t], starts[t], stages[0], n)
    ensures prog.next(Alone(prog, starts[t], stages[0], k).0).Halt?
    ensures Agree(owned[t], stages[|starts|], Alone(prog, starts[t], stages[0], k).1)
  {
    assert Stage(prog, owned, starts, ends, stages, t);
    k :| Alone(prog, starts[t], stages[t], k) == (ends[t], stages[t + 1])
         && Obeys(prog, owned[t], starts[t], stages[t], k);
    StartsFresh(prog, owned, starts, ends, stages, t);
    forall j: nat | j <= k
      ensures Alone(prog, starts[t], stages[0], j).0 == Alone(prog, starts[t], stages[t], j).0
      ensures Agree(owned[t], Alone(prog, starts[t], stages[t], j).1, Alone(prog, starts[t], stages[0], j).1)
    {
      AloneAgrees(prog, owned[t], starts[t], stages[t], stages[0], j);
    }
    forall n: nat
      ensures Obeys(prog, owned[t], starts[t], stages[0], n)
    {
      HaltedObeys(prog, owned[t], starts[t], stages[0], k, n);
    }
  }

  lemma SequentialObeys<L(!new)>(prog: Program<L>, owned: seq<set<nat>>, starts: seq<L>, ends: seq<L>,
                          stages: seq<Memory>)
    requires Sequential(prog, owned, starts, ends, stages)
    ensures AllObey(prog, owned, World(starts, stages[0]))
  {
    forall t | 0 <= t < |starts|
      ensures forall n: nat :: Obeys(prog, owned[t], starts[t], stages[0], n)
    {
      var k := AloneFromStart(prog, owned, starts, ends, stages, t);
    }
  }

  /** Any interleaving in which all threads have halted has left the memory that running them one
      after the other leaves. */
  lemma EveryInterleavingIsSequential<L(!new)>(prog: Program<L>, owned: seq<set<nat>>, starts: seq<L>, ends: seq<L>,
                                               stages: seq<Memory>, schedule: seq<nat>)
    requires Sequential(prog, owned, starts, ends, stages)
    requires Complete(prog, Run(prog, World(starts, stages[0]), schedule))
    ensures Run(prog, World(starts, stages[0]), schedule).memory == stages[|starts|]
  {
    var w := World(starts, stages[0]);
    var m, last := Run(prog, w, schedule).memory, stages[|starts|];
    SequentialObeys(prog, owned, starts, ends, stages);
    SameShape(prog, owned, starts, ends, stages, |starts|);
    RunShape(prog, w, schedule);
    forall i | 0 <= i < |m.bytes|
      ensures m.bytes[i] == last.bytes[i]
    {
      var a := m.base + i;
      assert m.Byte(a) == last.Byte(a) by {
        if t :| 0 <= t < |owned| && a in owned[t] {
          OwnedOutcome(prog, owned, starts, ends, stages, schedule, t);
        } else {
          RestUntouched(prog, owned, w, schedule, a);
          StagesKeep(prog, owned, starts, ends, stages, 0, |starts|, a);
        }
      }
    }
    assert m.bytes == last.bytes;
  }

  lemma OwnedOutcome<L(!new)>(prog: Program<L>, owned: seq<set<nat>>, starts: seq<L>, ends: seq<L>,
                              stages: seq<Memory>, schedule: seq<nat>, t: nat)
    requires Sequential(prog, owned, starts, ends, stages) && t < |starts|
             && AllObey(prog, owned, World(starts, stages[0]))
    requires Complete(prog, Run(prog, World(starts, stages[0]), schedule))
    ensures Agree(owned[t], stages[|starts|], Run(prog, World(starts, stages[0]), schedule).memory)
  {
    var w := World(starts, stages[0]);
    var k := AloneFromStart(prog, owned, starts, ends, stages, t);
    EachAsIfAlone(prog, owned, w, schedule, t);
    var n := Turns(schedule, t);
    assert prog.next(Run(prog, w, schedule).locals[t]).Halt?;
    if k <= n {
      HaltedStays(prog, starts[t], stages[0], k, n);
    } else {
      HaltedStays(prog, starts[t], stages[0], n, k);
    }
  }

  lemma {:induction false} RunShape<L>(prog: Program<L>, w: World<L>, schedule: seq<nat>)
    ensures Run(prog, w, schedule).memory.base == w.memory.base
    ensures |Run(prog, w, schedule).memory.bytes| == |w.memory.bytes|
  {
    if schedule != [] {
      RunShape(prog, w, schedule[..|schedule| - 1]);
    }
  }

  /** And every interleaving gets there: with enough turns for each thread, all have halted. */
  lemma EnoughTurnsComplete<L(!new)>(prog: Program<L>, owned: seq<set<nat>>, starts: seq<L>, ends: seq<L>,
                              stages: seq<Memory>)
    returns (enough: seq<nat>)
    requires Sequential(prog, owned, starts, ends, stages)
    ensures |enough| == |starts|
    ensures forall schedule | (forall t | 0 <= t < |starts| :: enough[t] <= Turns(schedule, t)) ::
              Complete(prog, Run(prog, World(starts, stages[0]), schedule))
  {
    var w := World(starts, stages[0]);
    enough := [];
    while |enough| < |starts|
      invariant |enough| <= |starts|
      invariant forall t | 0 <= t < |enough| :: prog.next(Alone(prog, starts[t], stages[0], enough[t]).0).Halt?
    {
      var k := AloneFromStart(prog, owned, starts, ends, stages, |enough|);
      enough := enough + [k];
    }
    SequentialObeys(prog, owned, starts, ends, stages);
    forall schedule, t | (forall t | 0 <= t < |starts| :: enough[t] <= Turns(schedule, t)) && 0 <= t < |starts|
      ensures prog.next(Run(prog, w, schedule).locals[t]).Halt?
    {
      EachAsIfAlone(prog, owned, w, schedule, t);
      HaltedStays(prog, starts[t], stages[0], enough[t], Turns(schedule, t));
    }
  }
}
