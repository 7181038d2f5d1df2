/** All threads of multichase building their chases in one arena (multichase/multichase.c, main
    and thread_start): one after the other, and in any interleaving of their single accesses. */
module Building {
  import opened Numbers
  import opened Memory
  import opened Permutations
  import opened Layout
  import opened Accesses
  import opened Interleaving
  import opened Builder
  import opened Chase
  import opened LongChase
  import opened ThreadStart

  // ----- the ranges of different chases

  lemma MixerIndexInjective(parallelism: nat, nrThreads: nat, t: nat, par: nat, t': nat, par': nat)
    requires t < nrThreads && t' < nrThreads && par < parallelism && par' < parallelism
    ensures 0 <= parallelism * t + par < parallelism * nrThreads
    ensures parallelism * t + par == parallelism * t' + par' ==> t == t' && par == par'
  {
    BlockIndex(t, par, nrThreads, parallelism);
    BlockIndex(t', par', nrThreads, parallelism);
  }

  /** Objects of different (thread, parallel index, element) triples never overlap, and lie in the arena. */
  lemma PlainChasesApart(l: ArenaLayout, size: nat, parallelism: nat, nrThreads: nat,
                         t: nat, par: nat, x: nat, t': nat, par': nat, x': nat)
    requires Fits(l, size) && parallelism * nrThreads <= l.nrMixerIndices
    requires t < nrThreads && t' < nrThreads && par < parallelism && par' < parallelism
    requires x < l.NrElts() && x' < l.NrElts() && (t, par, x) != (t', par', x')
    ensures 0 <= parallelism * t && 0 <= parallelism * t'
    ensures ObjectsApart(l, size, parallelism * t + par, x, parallelism * t' + par', x')
  {
    MixerIndexInjective(parallelism, nrThreads, t, par, t', par');
    MixerIndexInjective(parallelism, nrThreads, t', par', t, par);
    MulMono(0, t, parallelism);
    MulMono(0, t', parallelism);
    DifferentObjects(l, size, parallelism * t + par, x, parallelism * t' + par', x');
  }

  /** The objects at two cells do not overlap, and the first lies inside the arena. */
  ghost predicate ObjectsApart(l: ArenaLayout, size: nat, row: nat, x: nat, row': nat, x': nat)
    requires 0 < l.nrMixerIndices && 0 < l.nrMixers
  {
    var a, b := l.Cell(row, x), l.Cell(row', x');
    (a + size <= b || b + size <= a) && l.base <= a && a + size <= l.base + l.totalMemory
  }

  lemma DifferentObjects(l: ArenaLayout, size: nat, row: nat, x: nat, row': nat, x': nat)
    requires Fits(l, size) && row < l.nrMixerIndices && row' < l.nrMixerIndices && x < l.NrElts() && x' < l.NrElts()
    requires row != row' || x != x'
    ensures ObjectsApart(l, size, row, x, row', x')
  {
    CellInElement(l, row, x);
    MulMono(0, x, l.stride);
    CellsApart(l, row, x, row', x');
  }

  /** The same for long chases: here every chase has `iterations` rows, one for each block. */
  lemma LongChasesApart(l: ArenaLayout, size: nat, parallelism: nat, nrThreads: nat, iterations: nat,
                        t: nat, par: nat, j: nat, x: nat, t': nat, par': nat, j': nat, x': nat)
    requires Fits(l, size) && 0 < parallelism * nrThreads <= l.nrMixerIndices
    requires iterations == l.nrMixerIndices / (parallelism * nrThreads)
    requires t < nrThreads && t' < nrThreads && par < parallelism && par' < parallelism
    requires j < iterations && j' < iterations
    requires x < l.NrElts() && x' < l.NrElts() && (t, par, j, x) != (t', par', j', x')
    ensures var row, row' := (parallelism * t + par) * iterations + j, (parallelism * t' + par') * iterations + j';
            0 <= row < l.nrMixerIndices && 0 <= row' < l.nrMixerIndices && ObjectsApart(l, size, row, x, row', x')
  {
    MixerIndexInjective(parallelism, nrThreads, t, par, t', par');
    MixerIndexInjective(parallelism, nrThreads, t', par', t, par);
    var k, k' := parallelism * t + par, parallelism * t' + par';
    RowInTable(l.nrMixerIndices, parallelism * nrThreads, iterations, k, j);
    RowInTable(l.nrMixerIndices, parallelism * nrThreads, iterations, k', j');
    DifferentObjects(l, size, k * iterations + j, x, k' * iterations + j', x');
  }

  lemma RowInTable(nrMixerIndices: nat, chases: nat, iterations: nat, k: nat, j: nat)
    requires k < chases <= nrMixerIndices && iterations == nrMixerIndices / chases && j < iterations
    ensures 0 <= k * iterations + j < nrMixerIndices
    ensures (k * iterations + j) / iterations == k && (k * iterations + j) % iterations == j
  {
    RowsOf(nrMixerIndices, chases, k);
    BlockIndex(k, j, chases, iterations);
  }

  // ----- the addresses of a thread

  /** Address a lies in an object of the rows row0, ..., row0+count-1. */
  ghost predicate InRowObjects(l: ArenaLayout, size: nat, row0: nat, count: nat, a: nat)
    requires 0 < l.stride && 0 < l.nrMixerIndices && 0 < l.nrMixers
  {
    exists r: nat, x: nat :: row0 <= r < row0 + count && x < l.NrElts() && l.Cell(r, x) <= a < l.Cell(r, x) + size
  }

  /** What a thread reads and writes while it builds: the objects of its chases, q rows each. */
  ghost function OwnedBytes(l: ArenaLayout, size: nat, parallelism: nat, q: nat, t: nat): set<nat>
    requires 0 < l.stride && 0 < l.nrMixerIndices && 0 < l.nrMixers
  {
    MulMono(0, t, parallelism * q);
    set a: nat |
      l.base <= a < l.base + l.totalMemory && InRowObjects(l, size, t * (parallelism * q), parallelism * q, a)
  }

  lemma OwnedDisjoint(l: ArenaLayout, size: nat, parallelism: nat, q: nat, nrThreads: nat, t: nat, u: nat)
    requires Fits(l, size) && nrThreads * (parallelism * q) <= l.nrMixerIndices && t < u < nrThreads
    ensures OwnedBytes(l, size, parallelism, q, t) !! OwnedBytes(l, size, parallelism, q, u)
  {
    var n := parallelism * q;
    MultiplesApart(t, u, n);
    MultiplesApart(u, nrThreads, n);
    forall a | a in OwnedBytes(l, size, parallelism, q, t)
      ensures a !in OwnedBytes(l, size, parallelism, q, u)
    {
      NoSharedAddress(l, size, t * n, n, u * n, n, a);
    }
  }

  lemma NoSharedAddress(l: ArenaLayout, size: nat, row0: nat, count: nat, row0': nat, count': nat, a: nat)
    requires Fits(l, size) && row0 + count <= row0' && row0' + count' <= l.nrMixerIndices
    requires InRowObjects(l, size, row0, count, a)
    ensures !InRowObjects(l, size, row0', count', a)
  {
    var r: nat, x: nat :| row0 <= r < row0 + count && x < l.NrElts() && l.Cell(r, x) <= a < l.Cell(r, x) + size;
    forall r': nat, x': nat | row0' <= r' < row0' + count' && x' < l.NrElts()
      ensures !(l.Cell(r', x') <= a < l.Cell(r', x') + size)
    {
      DifferentObjects(l, size, r, x, r', x');
    }
  }

  lemma OwnsOwned(l: ArenaLayout, size: nat, parallelism: nat, q: nat, nrThreads: nat, t: nat)
    requires Fits(l, size) && nrThreads * (parallelism * q) <= l.nrMixerIndices && t < nrThreads
    ensures 0 <= t * (parallelism * q)
            && OwnsObjects(OwnedBytes(l, size, parallelism, q, t), l, size, t * (parallelism * q), parallelism * q)
  {
    var n := parallelism * q;
    MulMono(0, t, n);
    MultiplesApart(t, nrThreads, n);
    forall r: nat, x: nat, a | t * n <= r < t * n + n && x < l.NrElts() && l.Cell(r, x) <= a < l.Cell(r, x) + size
      ensures a in OwnedBytes(l, size, parallelism, q, t)
    {
      CellInElement(l, r, x);
      MulMono(0, x, l.stride);
      assert InRowObjects(l, size, t * n, n, a);
    }
  }

  // ----- one after the other

  const HALTED: Local := Local([], Threading(0))

  function Ends(n: nat): (ends: seq<Local>)
    ensures |ends| == n && forall t | 0 <= t < n :: ends[t] == HALTED
  {
    seq(n, _ => HALTED)
  }

  /** A run of the threads one after the other: the addresses of each, its program, and the memory
      before and after it. */
  datatype SerialRun = SerialRun(owned: seq<set<nat>>, starts: seq<Local>, stages: seq<Memory>)

  /** The run of the first n threads. */
  ghost predicate SerialUpTo(l: ArenaLayout, size: nat, parallelism: nat, q: nat, run: SerialRun, n: nat)
    requires 0 < l.stride && 0 < l.nrMixerIndices && 0 < l.nrMixers
  {
    |run.owned| == |run.starts| == n && |run.stages| == n + 1
    && forall t | 0 <= t < n ::
         run.owned[t] == OwnedBytes(l, size, parallelism, q, t)
         && Reaches(BUILD, run.owned[t], run.starts[t], run.stages[t], HALTED, run.stages[t + 1])
  }

  lemma SerialIsSequential(l: ArenaLayout, size: nat, parallelism: nat, q: nat, run: SerialRun, n: nat)
    requires Fits(l, size) && n * (parallelism * q) <= l.nrMixerIndices && SerialUpTo(l, size, parallelism, q, run, n)
    ensures Sequential(BUILD, run.owned, run.starts, Ends(n), run.stages)
  {
    forall t, u | 0 <= t < u < n
      ensures run.owned[t] !! run.owned[u]
    {
      OwnedDisjoint(l, size, parallelism, q, n, t, u);
    }
  }

  /** Each thread has words of its own, and its chases are made of them from the first word on. */
  ghost predicate AllDrawn(l: ArenaLayout, generator: Generator, draws: nat -> nat -> nat, orders: seq<seq<nat>>,
                           parallelism: nat, nrThreads: nat, q: nat)
    requires 0 < l.stride && 0 < l.tlbLocality
  {
    |orders| == parallelism * nrThreads
    && forall t: nat | t < nrThreads :: DrawnByThread(l, generator, draws, orders, parallelism, t, q)
  }

  ghost predicate DrawnByThread(l: ArenaLayout, generator: Generator, draws: nat -> nat -> nat, orders: seq<seq<nat>>,
                                parallelism: nat, t: nat, q: nat)
    requires 0 < l.stride && 0 < l.tlbLocality
  {
    0 <= parallelism * t && ThreadDrawn(l, Source(generator, draws(t)), 0, orders, parallelism * t, parallelism, q)
  }

  lemma OneMoreThread(l: ArenaLayout, generator: Generator, draws: nat -> nat -> nat, before: seq<seq<nat>>,
                      orders: seq<seq<nat>>, parallelism: nat, t: nat, q: nat)
    requires 0 < l.stride && 0 < l.tlbLocality && AllDrawn(l, generator, draws, before, parallelism, t, q)
    requires |orders| == |before| + parallelism && orders[..|before|] == before
    requires ThreadDrawn(l, Source(generator, draws(t)), 0, orders, |before|, parallelism, q)
    ensures AllDrawn(l, generator, draws, orders, parallelism, t + 1, q)
  {
    assert parallelism * (t + 1) == parallelism * t + parallelism;
    assert orders == before + orders[|before|..];
    forall u: nat | u < t + 1
      ensures DrawnByThread(l, generator, draws, orders, parallelism, u, q)
    {
      if u < t {
        assert DrawnByThread(l, generator, draws, before, parallelism, u, q);
        ThreadDrawnLonger(l, Source(generator, draws(u)), 0, before, parallelism * u, parallelism, q,
                          orders[|before|..]);
      }
    }
  }

  /** All threads, one after the other: every chase of every thread is complete at the end, and none
      has disturbed another. The arena has to be zeroed only for long chases and for branches. */
  method StartAllThreads(args: ChaseArgs, kind: ChaseKind, nrThreads: nat, long: bool, draws: nat -> nat -> nat)
    returns (cycles: seq<nat>, ghost orders: seq<seq<nat>>, ghost q: nat, ghost run: SerialRun)
    requires Configured(args, kind, nrThreads)
    requires NeedsZeros(kind, long) ==> forall i | 0 <= i < args.arena.bytes.Length :: args.arena.bytes[i] == 0
    modifies args.arena.bytes
    ensures q == RowsPerChase(args.nrMixerIndices, kind.parallelism * nrThreads, long)
    ensures 0 < q && |cycles| == |orders| == kind.parallelism * nrThreads && |cycles| * q <= args.nrMixerIndices
    ensures forall k: nat | k < |cycles| :: ChaseDone(args, kind, args.arena.View(), q, orders, cycles, k)
    ensures AllDrawn(args.View(), args.generator, draws, orders, kind.parallelism, nrThreads, q)
    ensures SerialUpTo(args.View(), kind.objectSize, kind.parallelism, q, run, nrThreads)
    ensures run.stages[0] == old(args.arena.View()) && run.stages[nrThreads] == args.arena.View()
  {
    var chases := kind.parallelism * nrThreads;
    MixerIndexBelow(kind.parallelism, nrThreads, 0, 0);
    ChaseRows(args.nrMixerIndices, chases, long, chases - 1);
    q := RowsPerChase(args.nrMixerIndices, chases, long);
    cycles, orders := [], [];
    run := SerialRun([], [], [args.arena.View()]);
    ProgressAtStart(args, kind, long, args.arena.View(), q);
    var t := 0;
    while t < nrThreads
      invariant 0 <= t <= nrThreads
      invariant |cycles| == kind.parallelism * t && Progress(args, kind, long, args.arena.View(), q, orders, cycles)
      invariant AllDrawn(args.View(), args.generator, draws, orders, kind.parallelism, t, q)
      invariant SerialUpTo(args.View(), kind.objectSize, kind.parallelism, q, run, t)
      invariant run.stages[0] == old(args.arena.View()) && run.stages[t] == args.arena.View()
    {
      var rng := new Rng(draws(t));
      ghost var own := OwnedBytes(args.View(), kind.objectSize, kind.parallelism, q, t);
      OwnsThread(args.View(), kind.objectSize, kind.parallelism, q, nrThreads, t);
      var cycle;
      ghost var before, tasks := orders, [];
      cycle, orders, tasks := StartThread(args, kind, t, nrThreads, long, rng, orders, cycles, own);
      OneMoreThread(args.View(), args.generator, draws, before, orders, kind.parallelism, t, q);
      run := SerialRun(run.owned + [own], run.starts + [Local(tasks, Threading(0))], run.stages + [args.arena.View()]);
      assert kind.parallelism * (t + 1) == kind.parallelism * t + kind.parallelism;
      cycles := cycles + cycle;
      t := t + 1;
    }
  }

  lemma OwnsThread(l: ArenaLayout, size: nat, parallelism: nat, q: nat, nrThreads: nat, t: nat)
    requires Fits(l, size) && t < nrThreads && 0 <= (parallelism * nrThreads) * q <= l.nrMixerIndices
    ensures nrThreads * (parallelism * q) <= l.nrMixerIndices
    ensures 0 <= (parallelism * t) * q && 0 <= parallelism * q
    ensures OwnsObjects(OwnedBytes(l, size, parallelism, q, t), l, size, (parallelism * t) * q, parallelism * q)
  {
    assert (parallelism * nrThreads) * q == nrThreads * (parallelism * q);
    assert (parallelism * t) * q == t * (parallelism * q);
    MulMono(0, parallelism, q);
    OwnsOwned(l, size, parallelism, q, nrThreads, t);
  }

  lemma ProgressAtStart(args: ChaseArgs, kind: ChaseKind, long: bool, m: Memory, q: nat)
    requires Ready(args) && Fits(args.View(), kind.objectSize) && 0 < args.View().NrElts() && m == args.arena.View()
    requires NeedsZeros(kind, long) ==> forall i | 0 <= i < args.arena.bytes.Length :: args.arena.bytes[i] == 0
    ensures Progress(args, kind, long, m, q, [], [])
  {
    if NeedsZeros(kind, long) {
      ZeroedArena(args, kind.objectSize);
    }
    assert 0 * q == 0;
  }

  lemma ZeroedArena(args: ChaseArgs, size: nat)
    requires Ready(args) && Fits(args.View(), size) && 0 < args.View().NrElts()
    requires forall i | 0 <= i < args.arena.bytes.Length :: args.arena.bytes[i] == 0
    ensures ObjectsZero(args.View(), size, 0, args.nrMixerIndices, args.arena.View())
  {
    forall r: nat, x: nat | r < args.nrMixerIndices && x < args.View().NrElts()
      ensures ObjectZero(args.arena.View(), args.View().Cell(r, x), size)
    {
      CellInArena(args, r, x);
    }
  }

  // ----- side by side

  /** Every chase of every thread is finished in this memory. */
  ghost predicate AllDone(args: ChaseArgs, kind: ChaseKind, m: Memory, q: nat, orders: seq<seq<nat>>, cycles: seq<nat>)
    requires Ready(args) && 0 < args.View().NrElts() && |cycles| == |orders|
    reads args, args.arena
  {
    forall k: nat | k < |cycles| :: ChaseDone(args, kind, m, q, orders, cycles, k)
  }

  /** The threads build at the same time: in every interleaving of their single accesses that has
      come to its end, all chases are finished. Every schedule that gives each thread enough turns
      comes to its end. */
  lemma ConcurrentBuild(args: ChaseArgs, kind: ChaseKind, nrThreads: nat, q: nat, run: SerialRun,
                        orders: seq<seq<nat>>, cycles: seq<nat>)
    returns (enough: seq<nat>)
    requires Configured(args, kind, nrThreads) && |orders| == |cycles| == kind.parallelism * nrThreads
    requires |cycles| * q <= args.nrMixerIndices
    requires SerialUpTo(args.View(), kind.objectSize, kind.parallelism, q, run, nrThreads)
    requires AllDone(args, kind, run.stages[nrThreads], q, orders, cycles)
    ensures |enough| == nrThreads
    ensures forall schedule | Complete(BUILD, Run(BUILD, World(run.starts, run.stages[0]), schedule)) ::
              AllDone(args, kind, Run(BUILD, World(run.starts, run.stages[0]), schedule).memory, q, orders, cycles)
    ensures forall schedule | (forall t | 0 <= t < nrThreads :: enough[t] <= Turns(schedule, t)) ::
              Complete(BUILD, Run(BUILD, World(run.starts, run.stages[0]), schedule))
  {
    assert (kind.parallelism * nrThreads) * q == nrThreads * (kind.parallelism * q);
    SerialIsSequential(args.View(), kind.objectSize, kind.parallelism, q, run, nrThreads);
    enough := EnoughTurnsComplete(BUILD, run.owned, run.starts, Ends(nrThreads), run.stages);
    forall schedule | Complete(BUILD, Run(BUILD, World(run.starts, run.stages[0]), schedule))
      ensures AllDone(args, kind, Run(BUILD, World(run.starts, run.stages[0]), schedule).memory, q, orders, cycles)
    {
      EveryInterleavingIsSequential(BUILD, run.owned, run.starts, Ends(nrThreads), run.stages, schedule);
    }
  }

  // ----- main

  /** What main makes of its arguments: the rounded sizes, one slot for each object that fits into the
      stride, and the mixer. */
  ghost predicate MainArgs(args: ChaseArgs, objectSize: nat, totalMemory: nat, stride: nat, tlbLocality: nat,
                           generator: Generator, nrChases: nat, mixerDraws: nat -> nat, address: nat)
    reads args, args.arena
  {
    0 < stride && 0 < objectSize && args.stride == stride && args.generator == generator
    && args.arena.base == address && args.arena.bytes.Length == args.totalMemory
    && SizesAre(totalMemory, tlbLocality, stride, args.totalMemory, args.tlbLocality)
    && args.nrMixerIndices == stride / objectSize
    && 64 <= args.nrMixers && nrChases <= args.nrMixers && (args.nrMixers != 64 ==> args.nrMixers < 2 * nrChases)
    && MixerDrawn(args.View(), Source(generator, mixerDraws), 0)
  }

  /** main, from the arguments to the finished chases: the sizes are rounded, the mixer is made, the
      arena is mapped, and the threads build. It refuses exactly the strides that are too small;
      otherwise all chases are finished, however the accesses of the threads interleave. */
  method BuildAll(kind: ChaseKind, totalMemory: nat, stride: nat, tlbLocality: nat, generator: Generator,
                  nrThreads: nat, long: bool, address: nat, mixerDraws: nat -> nat, draws: nat -> nat -> nat)
    returns (ok: bool, args: ChaseArgs, cycles: seq<nat>, ghost orders: seq<seq<nat>>, ghost q: nat,
             ghost run: SerialRun, ghost enough: seq<nat>)
    requires kind.Valid() && 0 < nrThreads && 0 < totalMemory
    requires 0 < address && address + (if totalMemory < stride then stride else totalMemory) < ADDRESS_LIMIT
    ensures ok <==> PTR_SIZE <= stride && nrThreads * kind.parallelism <= stride / kind.objectSize
    ensures ok ==> Configured(args, kind, nrThreads) && |cycles| == |orders| == kind.parallelism * nrThreads
    ensures ok ==> MainArgs(args, kind.objectSize, totalMemory, stride, tlbLocality, generator,
                            nrThreads * kind.parallelism, mixerDraws, address)
    ensures ok ==> q == if long then stride / kind.objectSize / (nrThreads * kind.parallelism) else 1
    ensures ok ==> AllDrawn(args.View(), generator, draws, orders, kind.parallelism, nrThreads, q)
    ensures ok ==> |cycles| * q <= args.nrMixerIndices
                   && SerialUpTo(args.View(), kind.objectSize, kind.parallelism, q, run, nrThreads)
                   && run.stages[nrThreads] == args.arena.View()
    ensures ok ==> AllDone(args, kind, args.arena.View(), q, orders, cycles)
    ensures ok ==> |run.starts| == |enough| == nrThreads && 0 < |run.stages|
                   && forall i | 0 <= i < |run.stages[0].bytes| :: run.stages[0].bytes[i] == 0
    ensures ok ==> forall schedule | Complete(BUILD, Run(BUILD, World(run.starts, run.stages[0]), schedule)) ::
                     AllDone(args, kind, Run(BUILD, World(run.starts, run.stages[0]), schedule).memory, q, orders,
                             cycles)
    ensures ok ==> forall schedule | (forall t | 0 <= t < nrThreads :: enough[t] <= Turns(schedule, t)) ::
                     Complete(BUILD, Run(BUILD, World(run.starts, run.stages[0]), schedule))
  {
    cycles, orders, q, run, enough := [], [], 0, SerialRun([], [], []), [];
    ok, args := SetUp(kind, totalMemory, stride, tlbLocality, generator, nrThreads, address, mixerDraws);
    if ok {
      assert kind.parallelism * nrThreads == nrThreads * kind.parallelism;
      cycles, orders, q, run := StartAllThreads(args, kind, nrThreads, long, draws);
      enough := ConcurrentBuild(args, kind, nrThreads, q, run, orders, cycles);
    }
  }

  /** main up to the creation of the threads: the sizes, the mixer and the arena. */
  method SetUp(kind: ChaseKind, totalMemory: nat, stride: nat, tlbLocality: nat, generator: Generator,
               nrThreads: nat, address: nat, mixerDraws: nat -> nat)
    returns (ok: bool, args: ChaseArgs)
    requires kind.Valid() && 0 < nrThreads && 0 < totalMemory
    requires 0 < address && address + (if totalMemory < stride then stride else totalMemory) < ADDRESS_LIMIT
    ensures fresh(args) && fresh(args.arena) && fresh(args.arena.bytes)
    ensures ok <==> PTR_SIZE <= stride && nrThreads * kind.parallelism <= stride / kind.objectSize
    ensures ok ==> Configured(args, kind, nrThreads)
    ensures ok ==> MainArgs(args, kind.objectSize, totalMemory, stride, tlbLocality, generator,
                            nrThreads * kind.parallelism, mixerDraws, address)
    ensures ok ==> forall i | 0 <= i < args.arena.bytes.Length :: args.arena.bytes[i] == 0
  {
    var empty := new Arena(address, 0);
    args := new ChaseArgs(empty, totalMemory, stride, tlbLocality, generator);
    BlockIndex(0, 0, nrThreads, kind.parallelism);
    ok := args.RoundSizes(kind.objectSize, nrThreads * kind.parallelism);
    if ok {
      var rng := new Rng(mixerDraws);
      args.GenerateMixer(nrThreads * kind.parallelism, rng);
      args.arena := new Arena(address, args.totalMemory);
      MainConfigures(args, kind, nrThreads);
    }
  }

  /** The checks of main are what the threads rely on. */
  lemma MainConfigures(args: ChaseArgs, kind: ChaseKind, nrThreads: nat)
    requires kind.Valid() && 0 < nrThreads && args.View().Valid() && kind.objectSize <= args.View().MixerScale()
    requires nrThreads * kind.parallelism <= args.nrMixerIndices
    requires args.arena.Valid() && args.totalMemory <= args.arena.bytes.Length
    ensures Configured(args, kind, nrThreads)
  {
    ColumnOf(args.View(), 0);
    RoundedCounts(args.View());
  }
}
