/** thread_start (multichase/multichase.c): every thread builds its chases in the shared arena
    and rewrites them for the selected kind of chase. Whatever one thread builds stays intact
    while the others build theirs. */
module ThreadStart {
  import opened Numbers
  import opened Memory
  import opened Permutations
  import opened Layout
  import opened Chase
  import opened LongChase
  import opened Critword
  import BranchCode
  import opened ChunkSize
  import opened Encoding
  import opened Accesses
  import opened Builder
  import opened BranchCompiler

  /** Chunk size that thread_start asks the branch compiler for. */
  const CHUNK_SIZE: nat := 200

  /** An entry of the table of chases. */
  datatype ChaseKind = ChaseKind(objectSize: nat, parallelism: nat, rewrite: Rewrite) {
    predicate Valid() {
      PTR_SIZE <= objectSize && 0 < parallelism
      && (rewrite.ToBranches? ==>
            objectSize == BranchCode.OBJECT_SIZE && parallelism == 1 && rewrite.chunkSize == CHUNK_SIZE)
      && (rewrite.ToCritword? || rewrite.ToCritword2? ==>
            parallelism == 1 && rewrite.offset + PTR_SIZE <= objectSize)
    }
  }

  // ----- objects

  /** Address a lies in no object of the rows row0, ..., row0+count-1. */
  ghost predicate OutsideRowObjects(l: ArenaLayout, size: nat, row0: nat, count: nat, a: nat)
    requires 0 < l.stride && 0 < l.nrMixerIndices && 0 < l.nrMixers
  {
    forall r: nat, x: nat | row0 <= r < row0 + count && x < l.NrElts() ::
      a < l.Cell(r, x) || l.Cell(r, x) + size <= a
  }

  ghost predicate OnlyRowObjectsChanged(l: ArenaLayout, size: nat, row0: nat, count: nat, m: Memory, w: Memory)
    requires 0 < l.stride && 0 < l.nrMixerIndices && 0 < l.nrMixers
  {
    w.base == m.base && |w.bytes| == |m.bytes|
    && forall a: nat | m.Has(a, 1) && OutsideRowObjects(l, size, row0, count, a) :: w.Byte(a) == m.Byte(a)
  }

  /** The layout offers slots for objects of this size. */
  ghost predicate Fits(l: ArenaLayout, size: nat) {
    l.Valid() && 0 < l.nrMixers && PTR_SIZE <= size <= l.MixerScale()
  }

  lemma ChangesCompose(l: ArenaLayout, size: nat, r1: nat, c1: nat, r2: nat, c2: nat, r: nat, c: nat, m: Memory,
                       v: Memory, w: Memory)
    requires 0 < l.stride && 0 < l.nrMixerIndices && 0 < l.nrMixers
    requires OnlyRowObjectsChanged(l, size, r1, c1, m, v) && OnlyRowObjectsChanged(l, size, r2, c2, v, w)
    requires r <= r1 && r1 + c1 <= r + c && r <= r2 && r2 + c2 <= r + c
    ensures OnlyRowObjectsChanged(l, size, r, c, m, w)
  {
    forall a: nat | m.Has(a, 1) && OutsideRowObjects(l, size, r, c, a)
      ensures w.Byte(a) == m.Byte(a)
    {
      assert OutsideRowObjects(l, size, r1, c1, a);
      assert OutsideRowObjects(l, size, r2, c2, a);
    }
  }

  /** A byte inside an object of one row is outside all objects of other rows. */
  lemma InsideIsOutside(l: ArenaLayout, size: nat, row: nat, x: nat, a: nat, row0: nat, count: nat)
    requires Fits(l, size) && row < l.nrMixerIndices && x < l.NrElts() && row0 + count <= l.nrMixerIndices
    requires row < row0 || row0 + count <= row
    requires l.Cell(row, x) <= a < l.Cell(row, x) + size
    ensures OutsideRowObjects(l, size, row0, count, a)
  {
    forall r: nat, y: nat | row0 <= r < row0 + count && y < l.NrElts()
      ensures a < l.Cell(r, y) || l.Cell(r, y) + size <= a
    {
      CellsApart(l, row, x, r, y);
    }
  }

  /** All objects of the rows consist of zero bytes. */
  ghost predicate ObjectsZero(l: ArenaLayout, size: nat, row0: nat, count: nat, m: Memory)
    requires 0 < l.stride && 0 < l.nrMixerIndices && 0 < l.nrMixers
  {
    forall r: nat, x: nat | row0 <= r < row0 + count && x < l.NrElts() :: ObjectZero(m, l.Cell(r, x), size)
  }

  ghost predicate ObjectZero(m: Memory, p: nat, size: nat) {
    m.Has(p, size) && forall a | p <= a < p + size :: m.Byte(a) == 0
  }

  lemma ZeroKept(l: ArenaLayout, size: nat, row0: nat, count: nat, r1: nat, c1: nat, m: Memory, w: Memory)
    requires Fits(l, size) && row0 + count <= l.nrMixerIndices && r1 + c1 <= l.nrMixerIndices
    requires row0 + count <= r1 || r1 + c1 <= row0
    requires ObjectsZero(l, size, row0, count, m) && OnlyRowObjectsChanged(l, size, r1, c1, m, w)
    ensures ObjectsZero(l, size, row0, count, w)
  {
    forall r: nat, x: nat | row0 <= r < row0 + count && x < l.NrElts()
      ensures ObjectZero(w, l.Cell(r, x), size)
    {
      assert ObjectZero(m, l.Cell(r, x), size);
      forall a | l.Cell(r, x) <= a < l.Cell(r, x) + size
        ensures w.Byte(a) == 0
      {
        InsideIsOutside(l, size, r, x, a, r1, c1);
      }
    }
  }

  lemma {:induction false} ZeroBytes(s: seq<byte>)
    requires forall i | 0 <= i < |s| :: s[i] == 0
    ensures FromBytes(s) == 0
  {
    if s != [] {
      ZeroBytes(s[1..]);
    }
  }

  lemma ZeroLoads(m: Memory, p: nat, size: nat)
    requires ObjectZero(m, p, size) && PTR_SIZE <= size
    ensures m.Load(p) == 0
  {
    var s := m.bytes[p - m.base..p - m.base + PTR_SIZE];
    forall i | 0 <= i < |s|
      ensures s[i] == 0
    {
      assert s[i] == m.Byte(p + i);
    }
    ZeroBytes(s);
  }

  // ----- the chase of one mixer index

  /** The cells of an order lie in the rows of the chase. */
  lemma CellOfOrder(l: ArenaLayout, row0: nat, iterations: nat, order: seq<nat>, i: nat)
    requires l.Valid() && 0 < l.nrMixers && 0 < l.NrElts()
    requires IsPermutation(order, 0) && |order| == iterations * l.NrElts() && i < |order|
    ensures var v, n := order[i], l.NrElts();
            0 <= v / n < iterations && 0 <= v % n < n
            && LongCells(l, row0, order)[i] == l.Cell(row0 + v / n, v % n)
  {
    DivBelow(order[i], iterations, l.NrElts());
    DivBelow(order[i], 0, l.NrElts());
  }

  /** Chase number k of the run is finished: its ring is complete, and rewritten as its kind asks for. */
  ghost predicate Finished(l: ArenaLayout, rewrite: Rewrite, m: Memory, row0: nat, iterations: nat, order: seq<nat>,
                           head: nat)
    requires 0 < l.stride && 0 < l.NrElts() && 0 < l.nrMixerIndices && 0 < l.nrMixers
  {
    IsPermutation(order, 0) && 0 < |order| == iterations * l.NrElts()
    && LongCells(l, row0, order)[0] == head
    && Built(rewrite, m, LongCells(l, row0, order))
  }

  ghost predicate Built(rewrite: Rewrite, m: Memory, ring: seq<nat>) {
    match rewrite
    case Keep => IsRing(m, ring)
    case ToBranches(c) =>
      exists s, starts :: Converted(m, ring, c, s, starts)
    case ToCritword(offset) => IsRing(m, Alternating(ring, offset)) <==> 0 < offset && WordsKept(ring, offset)
    case ToCritword2(offset) => IsRing(m, Shifted(ring, offset)) && (IsRing(m, ring) <==> PointersKept(ring, offset))
  }

  /** A finished branch chase at work: any number of calls, starting with the head, walk round the
      cells in the order of the chase, and every call but for one node counts what it visits. In a
      chase of no more cells than the request, every call goes round once and comes back to the head. */
  lemma BranchChaseRuns(l: ArenaLayout, m: Memory, row0: nat, iterations: nat, order: seq<nat>, head: nat, q: nat,
                        steps: nat, s: nat)
    requires 0 < l.stride && 0 < l.NrElts() && 0 < l.nrMixerIndices && 0 < l.nrMixers
    requires Finished(l, ToBranches(CHUNK_SIZE), m, row0, iterations, order, head) && 2 * |order| <= steps
    requires ChunkSizeIs(|order|, 200, s)
    ensures var out := BranchCode.Calls(m, head, q, steps);
            out.Returned? && q * s <= |out.visited| <= q * s + q
            && out.visited == BranchCode.Walk(LongCells(l, row0, order), |out.visited|)
            && (|order| <= 200 ==> out.rax == head && |out.visited| == q * |order|)
  {
    var ring := LongCells(l, row0, order);
    var t, starts :| Converted(m, ring, CHUNK_SIZE, t, starts);
    SameChunkSize(|order|, CHUNK_SIZE, s, t);
    forall j: nat | j + 1 < |starts|
      ensures BranchCode.ChunkRuns(m, ring, starts, j, steps)
    {
      BranchCode.EveryChunkRuns(m, ring, starts, s, j, steps);
    }
    BranchCode.CallsWalkTheRing(m, ring, starts, s, q, steps);
    BranchCode.VisitsBracketed(starts, |ring|, s, q);
    if |order| <= 200 {
      BranchCode.VisitsOfOneChunk(|ring|, q);
    }
  }

  /** Two memories agree on the objects of a ring. */
  ghost predicate SameObjects(m: Memory, w: Memory, ring: seq<nat>, size: nat) {
    w.base == m.base && |w.bytes| == |m.bytes| && forall i | 0 <= i < |ring| :: SameObject(m, w, ring[i], size)
  }

  ghost predicate SameObject(m: Memory, w: Memory, p: nat, size: nat) {
    w.base == m.base && |w.bytes| == |m.bytes| && m.Has(p, size)
    && forall a | p <= a < p + size :: w.Byte(a) == m.Byte(a)
  }

  /** What has been built survives as long as its objects are left alone. */
  lemma BuiltKept(kind: ChaseKind, m: Memory, w: Memory, ring: seq<nat>)
    requires kind.Valid() && Built(kind.rewrite, m, ring) && SameObjects(m, w, ring, kind.objectSize)
    ensures Built(kind.rewrite, w, ring)
  {
    match kind.rewrite
    case Keep =>
      RingKept(m, w, ring, ring, kind.objectSize, 0);
    case ToBranches(c) =>
      var s, starts :| Converted(m, ring, c, s, starts);
      CodeKept(m, w, ring, starts);
      assert Converted(w, ring, c, s, starts);
    case ToCritword2(offset) =>
      RingKept(m, w, ring, ring, kind.objectSize, 0);
      RingKept(m, w, ring, Shifted(ring, offset), kind.objectSize, offset);
    case ToCritword(offset) =>
      AlternatingKept(m, w, ring, kind.objectSize, offset);
  }

  lemma AlternatingKept(m: Memory, w: Memory, ring: seq<nat>, size: nat, offset: nat)
    requires SameObjects(m, w, ring, size) && offset + PTR_SIZE <= size
    ensures IsRing(w, Alternating(ring, offset)) <==> IsRing(m, Alternating(ring, offset))
  {
    var r := Alternating(ring, offset);
    forall t | 0 <= t < |r|
      ensures m.Has(r[t], PTR_SIZE) && w.Has(r[t], PTR_SIZE) && w.Load(r[t]) == m.Load(r[t])
    {
      assert SameObject(m, w, ring[t / 2], size);
      LoadFrame(m, w, r[t]);
    }
  }

  lemma RingKept(m: Memory, w: Memory, ring: seq<nat>, r: seq<nat>, size: nat, offset: nat)
    requires SameObjects(m, w, ring, size) && offset + PTR_SIZE <= size
    requires |r| == |ring| && forall i | 0 <= i < |ring| :: r[i] == ring[i] + offset
    ensures IsRing(w, r) <==> IsRing(m, r)
  {
    forall i | 0 <= i < |r|
      ensures m.Has(r[i], PTR_SIZE) && w.Has(r[i], PTR_SIZE) && w.Load(r[i]) == m.Load(r[i])
    {
      assert SameObject(m, w, ring[i], size);
      LoadFrame(m, w, r[i]);
    }
  }

  lemma CodeKept(m: Memory, w: Memory, ring: seq<nat>, starts: seq<nat>)
    requires SameObjects(m, w, ring, BranchCode.OBJECT_SIZE) && BranchCode.Compiled(m, ring, starts)
    ensures BranchCode.Compiled(w, ring, starts)
  {
    forall k | 0 <= k < |ring|
      ensures BranchCode.Code(w, ring[k], ring[Next(k, |ring|)], k + 1 in starts)
    {
      var p := ring[k];
      assert BranchCode.Code(m, p, ring[Next(k, |ring|)], k + 1 in starts);
      assert SameObject(m, w, p, BranchCode.OBJECT_SIZE);
      LoadFrame(m, w, p + 2);
    }
  }

  /** Building in some rows leaves the finished chases of other rows alone. */
  lemma FinishedKept(l: ArenaLayout, kind: ChaseKind, m: Memory, w: Memory, row0: nat, iterations: nat,
                     order: seq<nat>, head: nat, r1: nat, c1: nat)
    requires Fits(l, kind.objectSize) && kind.Valid() && 0 < l.NrElts()
    requires m.base == l.base && l.totalMemory <= |m.bytes|
    requires row0 + iterations <= l.nrMixerIndices && r1 + c1 <= l.nrMixerIndices
    requires row0 + iterations <= r1 || r1 + c1 <= row0
    requires Finished(l, kind.rewrite, m, row0, iterations, order, head)
    requires OnlyRowObjectsChanged(l, kind.objectSize, r1, c1, m, w)
    ensures Finished(l, kind.rewrite, w, row0, iterations, order, head)
  {
    var ring := LongCells(l, row0, order);
    forall i | 0 <= i < |ring|
      ensures SameObject(m, w, ring[i], kind.objectSize)
    {
      CellOfOrder(l, row0, iterations, order, i);
      ObjectKept(l, kind.objectSize, m, w, row0 + order[i] / l.NrElts(), order[i] % l.NrElts(), r1, c1);
    }
    BuiltKept(kind, m, w, ring);
  }

  lemma ObjectKept(l: ArenaLayout, size: nat, m: Memory, w: Memory, r: nat, x: nat, r1: nat, c1: nat)
    requires Fits(l, size) && m.base == l.base && l.totalMemory <= |m.bytes|
    requires r < l.nrMixerIndices && x < l.NrElts() && r1 + c1 <= l.nrMixerIndices && (r < r1 || r1 + c1 <= r)
    requires OnlyRowObjectsChanged(l, size, r1, c1, m, w)
    ensures SameObject(m, w, l.Cell(r, x), size)
  {
    CellInElement(l, r, x);
    forall a | l.Cell(r, x) <= a < l.Cell(r, x) + size
      ensures w.Byte(a) == m.Byte(a)
    {
      InsideIsOutside(l, size, r, x, a, r1, c1);
    }
  }

  // ----- one thread

  /** main has accepted the sizes for this kind of chase and number of threads. */
  ghost predicate Configured(args: ChaseArgs, kind: ChaseKind, nrThreads: nat)
    reads args, args.arena
  {
    Ready(args) && Fits(args.View(), kind.objectSize) && kind.Valid() && 0 < nrThreads && 0 < args.View().NrElts()
    && kind.parallelism * nrThreads <= args.nrMixerIndices
  }

  /** Rows of the mixer table per chase. */
  function RowsPerChase(nrMixerIndices: nat, chases: nat, long: bool): nat
    requires 0 < chases
  {
    if long then nrMixerIndices / chases else 1
  }

  lemma ChaseRows(nrMixerIndices: nat, chases: nat, long: bool, k: nat)
    requires k < chases <= nrMixerIndices
    ensures var q := RowsPerChase(nrMixerIndices, chases, long);
            0 < q && 0 <= k * q && k * q + q <= nrMixerIndices
            && (k + 1) * q == k * q + q
  {
    if long {
      RowsOf(nrMixerIndices, chases, k);
    }
    var q := RowsPerChase(nrMixerIndices, chases, long);
    assert (k + 1) * q == k * q + q;
  }

  lemma PlainCellsAreLong(l: ArenaLayout, row: nat, order: seq<nat>)
    requires l.Valid() && 0 < l.nrMixers && 0 < l.NrElts()
    requires IsPermutation(order, 0) && |order| == l.NrElts()
    ensures LongCells(l, row, order) == Cells(l, row, order)
  {
    forall i | 0 <= i < |order|
      ensures LongCells(l, row, order)[i] == Cells(l, row, order)[i]
    {
      SmallModulo(order[i], l.NrElts());
    }
  }

  lemma PlainChange(l: ArenaLayout, size: nat, row: nat, m: Memory, w: Memory)
    requires Fits(l, size) && OnlyRowChanged(l, row, m, w)
    ensures OnlyRowObjectsChanged(l, size, row, 1, m, w)
    ensures OnlyRowsChanged(l, row, 1, m, w)
  {
    forall a: nat | m.Has(a, 1) && (OutsideRowObjects(l, size, row, 1, a) || OutsideRows(l, row, 1, a))
      ensures w.Byte(a) == m.Byte(a)
    {
      assert OutsideRow(l, row, a);
    }
  }

  lemma LongChange(l: ArenaLayout, size: nat, row0: nat, iterations: nat, m: Memory, w: Memory)
    requires Fits(l, size) && OnlyRowsChanged(l, row0, iterations, m, w)
    ensures OnlyRowObjectsChanged(l, size, row0, iterations, m, w)
  {
    forall a: nat | m.Has(a, 1) && OutsideRowObjects(l, size, row0, iterations, a)
      ensures w.Byte(a) == m.Byte(a)
    {
      forall r: nat | row0 <= r < row0 + iterations
        ensures OutsideRow(l, r, a)
      {}
    }
  }

  lemma ZeroIsBlank(args: ChaseArgs, size: nat, row0: nat, iterations: nat, m: Memory)
    requires LongReady(args, row0, iterations) && PTR_SIZE <= size && 0 <= iterations * args.View().NrElts()
    requires ObjectsZero(args.View(), size, row0, iterations, m)
    ensures Blank(m, LongCells(args.View(), row0, Counted(iterations * args.View().NrElts())))
  {
    var l := args.View();
    var n := l.NrElts();
    forall v: nat | v < iterations * n
      ensures m.Has(LongCell(l, row0, v), PTR_SIZE) && m.Load(LongCell(l, row0, v)) == 0
    {
      DivBelow(v, iterations, n);
      DivBelow(v, 0, n);
      assert ObjectZero(m, l.Cell(row0 + v / n, v % n), size);
      ZeroLoads(m, l.Cell(row0 + v / n, v % n), size);
    }
  }

  /** The objects of these rows are among the thread's own addresses. */
  ghost predicate OwnsObjects(own: set<nat>, l: ArenaLayout, size: nat, row0: nat, count: nat)
    requires 0 < l.stride && 0 < l.nrMixerIndices && 0 < l.nrMixers
  {
    forall r: nat, x: nat | row0 <= r < row0 + count && x < l.NrElts() :: Covered(own, l.Cell(r, x), size)
  }

  lemma OwnsPointers(own: set<nat>, l: ArenaLayout, size: nat, row0: nat, count: nat)
    requires 0 < l.stride && 0 < l.nrMixerIndices && 0 < l.nrMixers
    requires OwnsObjects(own, l, size, row0, count) && PTR_SIZE <= size
    ensures OwnsRows(own, l, row0, count)
  {
    forall r: nat, x | row0 <= r < row0 + count && 0 <= x < l.NrElts()
      ensures Covered(own, l.Cell(r, x), PTR_SIZE)
    {
      assert Covered(own, l.Cell(r, x), size);
    }
  }

  /** The chase is made of the words from `from` to `used`. */
  ghost predicate DrawnFrom(l: ArenaLayout, g: Source, from: nat, used: nat, order: seq<nat>, iterations: nat)
    requires 0 < l.stride && 0 < l.tlbLocality
  {
    DrawnOrder(order, g, from, l.NrTlbGroups(), l.NrEltsPerTlb(), iterations)
    && WordsUsed(l, g, from, used, iterations)
  }

  /** Chase number par of a thread that starts at word `from` is made of its share of the words; its
      order is number first + par in the list. */
  ghost predicate ChaseDrawn(l: ArenaLayout, g: Source, from: nat, orders: seq<seq<nat>>, first: nat, q: nat, par: nat)
    requires 0 < l.stride && 0 < l.tlbLocality && first + par < |orders|
  {
    0 <= par * q && DrawnAfter(l, g, from, orders[first + par], q, par * q)
  }

  /** The chase is made of the words that come after those of the given number of blocks. */
  ghost predicate DrawnAfter(l: ArenaLayout, g: Source, from: nat, order: seq<nat>, q: nat, blocks: nat)
    requires 0 < l.stride && 0 < l.tlbLocality
  {
    exists start, end :: WordsUsed(l, g, from, start, blocks) && DrawnFrom(l, g, start, end, order, q)
  }

  /** The chases of a thread, one after the other: the orders from number `first` on. */
  ghost predicate ThreadDrawn(l: ArenaLayout, g: Source, from: nat, orders: seq<seq<nat>>, first: nat, count: nat,
                              q: nat)
    requires 0 < l.stride && 0 < l.tlbLocality
  {
    first + count <= |orders| && forall par: nat | par < count :: ChaseDrawn(l, g, from, orders, first, q, par)
  }

  /** The first par chases of a thread, listed after those before. */
  ghost predicate DrawnSoFar(l: ArenaLayout, g: Source, from: nat, used: nat, before: seq<seq<nat>>,
                             orders: seq<seq<nat>>, par: nat, q: nat)
    requires 0 < l.stride && 0 < l.tlbLocality
  {
    |orders| == |before| + par && orders[..|before|] == before
    && 0 <= par * q && WordsUsed(l, g, from, used, par * q) && ThreadDrawn(l, g, from, orders, |before|, par, q)
  }

  /** One more chase, made of the next words. */
  lemma OneMoreDrawn(l: ArenaLayout, g: Source, from: nat, used: nat, used': nat, before: seq<seq<nat>>,
                     orders: seq<seq<nat>>, par: nat, q: nat, order: seq<nat>)
    requires 0 < l.stride && 0 < l.tlbLocality && DrawnSoFar(l, g, from, used, before, orders, par, q)
    requires DrawnFrom(l, g, used, used', order, q)
    ensures DrawnSoFar(l, g, from, used', before, orders + [order], par + 1, q)
  {
    var first := |before|;
    MulSucc(par, q);
    SumTimes(par * q, q, l.NrTlbGroups() + l.NrElts());
    ThreadDrawnLonger(l, g, from, orders, first, par, q, [order]);
    var more := orders + [order];
    assert more[first + par] == order;
    assert ChaseDrawn(l, g, from, more, first, q, par);
  }

  /** Later chases do not matter. */
  lemma ThreadDrawnLonger(l: ArenaLayout, g: Source, from: nat, orders: seq<seq<nat>>, first: nat, count: nat, q: nat,
                          later: seq<seq<nat>>)
    requires 0 < l.stride && 0 < l.tlbLocality && ThreadDrawn(l, g, from, orders, first, count, q)
    ensures ThreadDrawn(l, g, from, orders + later, first, count, q)
  {
    forall par: nat | par < count
      ensures ChaseDrawn(l, g, from, orders + later, first, q, par)
    {
      assert ChaseDrawn(l, g, from, orders, first, q, par);
      assert (orders + later)[first + par] == orders[first + par];
    }
  }

  lemma SumTimes(a: nat, b: nat, n: nat)
    ensures (a + b) * n == a * n + b * n
  {}

  /** One chase of a thread, plain or long. Only a long one looks at what the cells held: on zeroed
      objects it never aborts. */
  method GenerateOne(args: ChaseArgs, size: nat, chases: nat, long: bool, k: nat, rng: Rng, ghost own: set<nat>,
                     ghost rewrite: Rewrite)
    returns (head: nat, ghost order: seq<nat>, ghost row0: nat, ghost iterations: nat, ghost task: Task)
    requires Ready(args) && Fits(args.View(), size) && 0 < args.View().NrElts() && k < chases <= args.nrMixerIndices
    requires var q := RowsPerChase(args.nrMixerIndices, chases, long);
             0 <= k * q && OwnsObjects(own, args.View(), size, k * q, q)
             && (long ==> ObjectsZero(args.View(), size, k * q, q, args.arena.View()))
    modifies args.arena.bytes, rng
    ensures iterations == RowsPerChase(args.nrMixerIndices, chases, long) && row0 == k * iterations
    ensures row0 + iterations <= args.nrMixerIndices
    ensures Finished(args.View(), Keep, args.arena.View(), row0, iterations, order, head)
    ensures Spaced(LongCells(args.View(), row0, order), args.View().MixerScale())
    ensures DrawnFrom(args.View(), Source(args.generator, rng.draws), old(rng.used), rng.used, order, iterations)
    ensures OnlyRowsChanged(args.View(), row0, iterations, old(args.arena.View()), args.arena.View())
    ensures OnlyRowObjectsChanged(args.View(), size, row0, iterations, old(args.arena.View()), args.arena.View())
    ensures task.head == head && task.rewrite == rewrite
    ensures Builds(own, task, Threading(0), old(args.arena.View()), Rewriting(task), args.arena.View())
  {
    ChaseRows(args.nrMixerIndices, chases, long, k);
    iterations := RowsPerChase(args.nrMixerIndices, chases, long);
    row0 := k * iterations;
    OwnsPointers(own, args.View(), size, row0, iterations);
    if long {
      ZeroIsBlank(args, size, row0, iterations, args.arena.View());
      var h;
      h, order, row0, iterations, task := GenerateChaseLong(args, k, chases, rng, own, rewrite);
      head := h.value;
    } else {
      head, order, task := GeneratePlain(args, size, k, rng, own, rewrite);
    }
    LongChange(args.View(), size, row0, iterations, old(args.arena.View()), args.arena.View());
  }

  /** A plain chase, seen as a long one of a single block. */
  method GeneratePlain(args: ChaseArgs, size: nat, k: nat, rng: Rng, ghost own: set<nat>, ghost rewrite: Rewrite)
    returns (head: nat, ghost order: seq<nat>, ghost task: Task)
    requires Ready(args) && Fits(args.View(), size) && 0 < args.View().NrElts() && k < args.nrMixerIndices
    requires OwnsRow(own, args.View(), k)
    modifies args.arena.bytes, rng
    ensures Finished(args.View(), Keep, args.arena.View(), k, 1, order, head)
    ensures Spaced(LongCells(args.View(), k, order), args.View().MixerScale())
    ensures DrawnFrom(args.View(), Source(args.generator, rng.draws), old(rng.used), rng.used, order, 1)
    ensures OnlyRowsChanged(args.View(), k, 1, old(args.arena.View()), args.arena.View())
    ensures task.head == head && task.rewrite == rewrite
    ensures Builds(own, task, Threading(0), old(args.arena.View()), Rewriting(task), args.arena.View())
  {
    head, order, task := GenerateChase(args, k, rng, own, rewrite);
    PlainCellsAreLong(args.View(), k, order);
    PlainChange(args.View(), size, k, old(args.arena.View()), args.arena.View());
  }

  /** The objects of a finished chase, as the rewrites need them. */
  lemma ObjectsOfChase(args: ChaseArgs, size: nat, row0: nat, iterations: nat, order: seq<nat>, head: nat)
    requires Ready(args) && Fits(args.View(), size) && 0 < args.View().NrElts()
             && row0 + iterations <= args.nrMixerIndices
    requires Finished(args.View(), Keep, args.arena.View(), row0, iterations, order, head)
    requires Spaced(LongCells(args.View(), row0, order), args.View().MixerScale())
    ensures var ring := LongCells(args.View(), row0, order);
            Spaced(ring, size) && forall i | 0 <= i < |ring| :: args.arena.View().Has(ring[i], size)
  {
    var ring := LongCells(args.View(), row0, order);
    forall i | 0 <= i < |ring|
      ensures args.arena.View().Has(ring[i], size)
    {
      CellOfOrder(args.View(), row0, iterations, order, i);
      CellInArena(args, row0 + order[i] / args.View().NrElts(), order[i] % args.View().NrElts());
    }
  }

  /** A rewrite inside the objects of a chase changes only its rows. */
  lemma ObjectsAreRowObjects(l: ArenaLayout, size: nat, row0: nat, iterations: nat, order: seq<nat>, small: nat,
                             m: Memory, w: Memory)
    requires Fits(l, size) && 0 < l.NrElts() && small <= size
    requires IsPermutation(order, 0) && |order| == iterations * l.NrElts()
    requires OnlyObjectsChanged(m, w, LongCells(l, row0, order), small)
    ensures OnlyRowObjectsChanged(l, size, row0, iterations, m, w)
  {
    var ring := LongCells(l, row0, order);
    forall a: nat | m.Has(a, 1) && OutsideRowObjects(l, size, row0, iterations, a)
      ensures w.Byte(a) == m.Byte(a)
    {
      forall i | 0 <= i < |ring|
        ensures a < ring[i] || ring[i] + small <= a
      {
        CellOfOrder(l, row0, iterations, order, i);
      }
      assert OutsideObjects(ring, small, a);
    }
  }

  /** Behind the pointers of a freshly generated chase the objects are still zero. */
  lemma RoomBehindPointers(args: ChaseArgs, row0: nat, iterations: nat, order: seq<nat>, m: Memory, w: Memory)
    requires Ready(args) && Fits(args.View(), BranchCode.OBJECT_SIZE) && 0 < args.View().NrElts()
             && row0 + iterations <= args.nrMixerIndices
    requires IsPermutation(order, 0) && |order| == iterations * args.View().NrElts()
    requires ObjectsZero(args.View(), BranchCode.OBJECT_SIZE, row0, iterations, m)
    requires OnlyRowsChanged(args.View(), row0, iterations, m, w)
    ensures var ring := LongCells(args.View(), row0, order);
            forall i | 0 <= i < |ring| :: Roomy(w, ring[i])
  {
    var l := args.View();
    var ring := LongCells(l, row0, order);
    forall i | 0 <= i < |ring|
      ensures Roomy(w, ring[i])
    {
      CellOfOrder(l, row0, iterations, order, i);
      var r, x := row0 + order[i] / l.NrElts(), order[i] % l.NrElts();
      assert ObjectZero(m, l.Cell(r, x), BranchCode.OBJECT_SIZE);
      forall a | ring[i] + PTR_SIZE <= a < ring[i] + BR_CODE_LEN
        ensures w.Byte(a) == 0
      {
        BehindPointer(l, r, x, a, row0, iterations);
      }
    }
  }

  lemma BehindPointer(l: ArenaLayout, row: nat, x: nat, a: nat, row0: nat, iterations: nat)
    requires Fits(l, BranchCode.OBJECT_SIZE) && row0 + iterations <= l.nrMixerIndices
    requires row0 <= row < row0 + iterations && x < l.NrElts()
    requires l.Cell(row, x) + PTR_SIZE <= a < l.Cell(row, x) + BranchCode.OBJECT_SIZE
    ensures OutsideRows(l, row0, iterations, a)
  {
    forall r: nat | row0 <= r < row0 + iterations
      ensures OutsideRow(l, r, a)
    {
      forall y | 0 <= y < l.NrElts()
        ensures a < l.Cell(r, y) || l.Cell(r, y) + PTR_SIZE <= a
      {
        if r != row || y != x {
          CellsApart(l, row, x, r, y);
        }
      }
    }
  }

  /** The cells of an order lie in objects of the thread. */
  lemma OwnsRing(own: set<nat>, l: ArenaLayout, size: nat, row0: nat, iterations: nat, order: seq<nat>)
    requires l.Valid() && 0 < l.nrMixers && 0 < l.NrElts() && OwnsObjects(own, l, size, row0, iterations)
    requires IsPermutation(order, 0) && |order| == iterations * l.NrElts()
    ensures forall i | 0 <= i < |order| :: Covered(own, LongCells(l, row0, order)[i], size)
  {
    forall i | 0 <= i < |order|
      ensures Covered(own, LongCells(l, row0, order)[i], size)
    {
      CellOfOrder(l, row0, iterations, order, i);
    }
  }

  lemma WordsAreObjects(m: Memory, w: Memory, ring: seq<nat>, offset: nat, size: nat)
    requires OnlyWordsChanged(m, w, ring, offset) && PTR_SIZE <= size && offset + PTR_SIZE <= size
    ensures OnlyObjectsChanged(m, w, ring, size)
  {
    forall a: nat | m.Has(a, 1) && OutsideObjects(ring, size, a)
      ensures w.Byte(a) == m.Byte(a)
    {
      assert OutsideObjects(ring, PTR_SIZE, a);
      assert OutsideObjects(Shifted(ring, offset), PTR_SIZE, a);
    }
  }

  /** The rewrite that the name of the chase asks for. Only branch conversion looks at what stood
      behind the pointers: on zeroed objects it finds the room it needs. */
  method RewriteOne(args: ChaseArgs, kind: ChaseKind, head: nat, ghost was: Memory,
                    ghost order: seq<nat>, ghost row0: nat, ghost iterations: nat, ghost own: set<nat>,
                    ghost task: Task)
    returns (branchChunkSize: nat)
    requires Ready(args) && Fits(args.View(), kind.objectSize) && kind.Valid() && 0 < args.View().NrElts()
    requires row0 + iterations <= args.nrMixerIndices
             && OwnsObjects(own, args.View(), kind.objectSize, row0, iterations)
    requires Finished(args.View(), Keep, args.arena.View(), row0, iterations, order, head)
    requires Spaced(LongCells(args.View(), row0, order), args.View().MixerScale())
    requires kind.rewrite.ToBranches? ==> ObjectsZero(args.View(), kind.objectSize, row0, iterations, was)
    requires OnlyRowsChanged(args.View(), row0, iterations, was, args.arena.View())
    requires task.rewrite == kind.rewrite && task.head == head
    modifies args.arena.bytes
    ensures Finished(args.View(), kind.rewrite, args.arena.View(), row0, iterations, order, head)
    ensures kind.rewrite.ToBranches? ==> ChunkSizeIs(|order|, CHUNK_SIZE, branchChunkSize)
    ensures OnlyRowObjectsChanged(args.View(), kind.objectSize, row0, iterations, old(args.arena.View()),
                                  args.arena.View())
    ensures Builds(own, task, Rewriting(task), old(args.arena.View()), TaskDone, args.arena.View())
  {
    ghost var l, m, size := args.View(), args.arena.View(), kind.objectSize;
    ghost var ring := LongCells(l, row0, order);
    branchChunkSize := 0;
    ObjectsOfChase(args, size, row0, iterations, order, head);
    OwnsRing(own, l, size, row0, iterations, order);
    match kind.rewrite
    case Keep =>
      BuildsNothing(own, task, TaskDone, m);
    case ToBranches(c) =>
      RoomBehindPointers(args, row0, iterations, order, was, m);
      ChunkSizeIsGood(|ring|, c);
      var r, starts := ConvertPointersToBranches(args.arena, head, c, ring, own, task);
      branchChunkSize := r.value;
      ObjectsAreRowObjects(l, size, row0, iterations, order, BR_CODE_LEN, m, args.arena.View());
    case ToCritword(offset) =>
      ObjectsHaveRoom(m, ring, size, offset);
      OwnsSecondWords(own, ring, size, offset);
      CritwordSplit(args.arena, head, offset, ring, own, task);
      WordsAreObjects(m, args.arena.View(), ring, offset, size);
      ObjectsAreRowObjects(l, size, row0, iterations, order, size, m, args.arena.View());
    case ToCritword2(offset) =>
      ObjectsHaveRoom(m, ring, size, offset);
      OwnsSecondWords(own, ring, size, offset);
      Critword2(args.arena, head, offset, ring, own, task);
      WordsAreObjects(m, args.arena.View(), ring, offset, size);
      ObjectsAreRowObjects(l, size, row0, iterations, order, size, m, args.arena.View());
  }

  lemma OwnsSecondWords(own: set<nat>, ring: seq<nat>, size: nat, offset: nat)
    requires PTR_SIZE <= size && offset + PTR_SIZE <= size && forall i | 0 <= i < |ring| :: Covered(own, ring[i], size)
    ensures OwnsWords(own, ring, offset)
  {
    forall i | 0 <= i < |ring|
      ensures Covered(own, ring[i], PTR_SIZE) && Covered(own, ring[i] + offset, PTR_SIZE)
    {
      assert Covered(own, ring[i], size);
    }
  }

  // ----- all threads

  /** Only these chases look at what the arena held before. */
  predicate NeedsZeros(kind: ChaseKind, long: bool) {
    long || kind.rewrite.ToBranches?
  }

  /** The run so far: chases 0, ..., |heads|-1 are finished, and if it matters, the objects of all
      rows from the next chase on are still zero. */
  ghost predicate Progress(args: ChaseArgs, kind: ChaseKind, long: bool, m: Memory, q: nat, orders: seq<seq<nat>>,
                           heads: seq<nat>)
    requires Ready(args) && 0 < args.View().NrElts()
    reads args, args.arena
  {
    m.base == args.arena.base && |m.bytes| == args.arena.bytes.Length
    && |orders| == |heads| && 0 <= |heads| * q <= args.nrMixerIndices
    && (forall k: nat | k < |heads| :: ChaseDone(args, kind, m, q, orders, heads, k))
    && (NeedsZeros(kind, long) ==>
          ObjectsZero(args.View(), kind.objectSize, |heads| * q, args.nrMixerIndices - |heads| * q, m))
  }

  ghost predicate ChaseDone(args: ChaseArgs, kind: ChaseKind, m: Memory, q: nat, orders: seq<seq<nat>>, heads: seq<nat>,
                            k: nat)
    requires Ready(args) && 0 < args.View().NrElts() && k < |heads| == |orders|
    reads args, args.arena
  {
    0 <= k * q && Finished(args.View(), kind.rewrite, m, k * q, q, orders[k], heads[k])
  }

  /** Chase number |heads| is finished; the earlier ones are untouched, the later rows still zero. */
  lemma OneMoreChase(args: ChaseArgs, kind: ChaseKind, long: bool, m: Memory, w: Memory, q: nat,
                     orders: seq<seq<nat>>, heads: seq<nat>, order: seq<nat>, head: nat)
    requires Ready(args) && Fits(args.View(), kind.objectSize) && kind.Valid() && 0 < args.View().NrElts() && 0 < q
    requires Progress(args, kind, long, m, q, orders, heads)
    requires |heads| * q + q <= args.nrMixerIndices
    requires OnlyRowObjectsChanged(args.View(), kind.objectSize, |heads| * q, q, m, w)
    requires Finished(args.View(), kind.rewrite, w, |heads| * q, q, order, head)
    ensures Progress(args, kind, long, w, q, orders + [order], heads + [head])
  {
    forall k: nat | k < |heads|
      ensures ChaseDone(args, kind, w, q, orders, heads, k)
    {
      EarlierChaseKept(args, kind, long, m, w, q, orders, heads, k);
    }
    LaterRowsZero(args, kind, long, m, w, q, orders, heads);
    ChaseListed(args, kind, long, w, q, orders, heads, order, head);
  }

  /** Extending the list by a finished chase. */
  lemma ChaseListed(args: ChaseArgs, kind: ChaseKind, long: bool, w: Memory, q: nat,
                    orders: seq<seq<nat>>, heads: seq<nat>, order: seq<nat>, head: nat)
    requires Ready(args) && 0 < args.View().NrElts() && |orders| == |heads|
    requires w.base == args.arena.base && |w.bytes| == args.arena.bytes.Length
    requires forall k: nat | k < |heads| :: ChaseDone(args, kind, w, q, orders, heads, k)
    requires 0 <= |heads| * q && |heads| * q + q <= args.nrMixerIndices
    requires Finished(args.View(), kind.rewrite, w, |heads| * q, q, order, head)
    requires NeedsZeros(kind, long) ==>
               ObjectsZero(args.View(), kind.objectSize, |heads| * q + q, args.nrMixerIndices - (|heads| * q + q), w)
    ensures Progress(args, kind, long, w, q, orders + [order], heads + [head])
  {
    var n := |heads|;
    var orders', heads' := orders + [order], heads + [head];
    MulSucc(n, q);
    assert |heads'| == n + 1;
    forall k: nat | k < |heads'|
      ensures ChaseDone(args, kind, w, q, orders', heads', k)
    {
      if k < n {
        SameChase(args, kind, w, q, orders, heads, orders', heads', k);
      } else {
        assert k == n && orders'[k] == order && heads'[k] == head;
      }
    }
  }

  lemma SameChase(args: ChaseArgs, kind: ChaseKind, w: Memory, q: nat,
                  orders: seq<seq<nat>>, heads: seq<nat>, orders': seq<seq<nat>>, heads': seq<nat>, k: nat)
    requires Ready(args) && 0 < args.View().NrElts() && k < |heads| == |orders| && k < |heads'| == |orders'|
    requires ChaseDone(args, kind, w, q, orders, heads, k) && orders'[k] == orders[k] && heads'[k] == heads[k]
    ensures ChaseDone(args, kind, w, q, orders', heads', k)
  {}

  lemma EarlierChaseKept(args: ChaseArgs, kind: ChaseKind, long: bool, m: Memory, w: Memory, q: nat,
                         orders: seq<seq<nat>>, heads: seq<nat>, k: nat)
    requires Ready(args) && Fits(args.View(), kind.objectSize) && kind.Valid() && 0 < args.View().NrElts() && 0 < q
    requires Progress(args, kind, long, m, q, orders, heads) && k < |heads|
    requires |heads| * q + q <= args.nrMixerIndices
    requires OnlyRowObjectsChanged(args.View(), kind.objectSize, |heads| * q, q, m, w)
    ensures ChaseDone(args, kind, w, q, orders, heads, k)
  {
    assert ChaseDone(args, kind, m, q, orders, heads, k);
    MultiplesApart(k, |heads|, q);
    FinishedKept(args.View(), kind, m, w, k * q, q, orders[k], heads[k], |heads| * q, q);
  }

  lemma LaterRowsZero(args: ChaseArgs, kind: ChaseKind, long: bool, m: Memory, w: Memory, q: nat,
                      orders: seq<seq<nat>>, heads: seq<nat>)
    requires Ready(args) && Fits(args.View(), kind.objectSize) && 0 < args.View().NrElts()
    requires Progress(args, kind, long, m, q, orders, heads)
    requires |heads| * q + q <= args.nrMixerIndices
    requires OnlyRowObjectsChanged(args.View(), kind.objectSize, |heads| * q, q, m, w)
    ensures NeedsZeros(kind, long) ==>
              ObjectsZero(args.View(), kind.objectSize, |heads| * q + q, args.nrMixerIndices - (|heads| * q + q), w)
  {
    if NeedsZeros(kind, long) {
      var from := |heads| * q;
      var rest := args.nrMixerIndices - (from + q);
      assert ObjectsZero(args.View(), kind.objectSize, from + q, rest, m);
      ZeroKept(args.View(), kind.objectSize, from + q, rest, from, q, m, w);
    }
  }

  /** One thread: its chases are numbered parallelism * threadNum + par. Chases that are
      rewritten have parallelism one, so the rewrite concerns the one chase of the thread. */
  method StartThread(args: ChaseArgs, kind: ChaseKind, threadNum: nat, nrThreads: nat, long: bool, rng: Rng,
                     ghost orders: seq<seq<nat>>, ghost heads: seq<nat>, ghost own: set<nat>)
    returns (cycle: seq<nat>, ghost orders': seq<seq<nat>>, ghost tasks: seq<Task>)
    requires Configured(args, kind, nrThreads) && threadNum < nrThreads
    requires var q := RowsPerChase(args.nrMixerIndices, kind.parallelism * nrThreads, long);
             |heads| == kind.parallelism * threadNum && Progress(args, kind, long, args.arena.View(), q, orders, heads)
             && 0 <= |heads| * q && 0 <= kind.parallelism * q
             && OwnsObjects(own, args.View(), kind.objectSize, |heads| * q, kind.parallelism * q)
    modifies args.arena.bytes, rng
    ensures |cycle| == kind.parallelism
    ensures var q := RowsPerChase(args.nrMixerIndices, kind.parallelism * nrThreads, long);
            Progress(args, kind, long, args.arena.View(), q, orders', heads + cycle)
            && 0 <= |heads| * q && 0 <= |cycle| * q
            && OnlyRowObjectsChanged(args.View(), kind.objectSize, |heads| * q, |cycle| * q, old(args.arena.View()),
                                     args.arena.View())
    ensures TasksRun(own, tasks, old(args.arena.View()), args.arena.View())
    ensures |orders| <= |orders'| && orders'[..|orders|] == orders
    ensures ThreadDrawn(args.View(), Source(args.generator, rng.draws), old(rng.used), orders', |orders|,
                        kind.parallelism, RowsPerChase(args.nrMixerIndices, kind.parallelism * nrThreads, long))
  {
    ghost var q, g, from := RowsPerChase(args.nrMixerIndices, kind.parallelism * nrThreads, long),
                            Source(args.generator, rng.draws), rng.used;
    ghost var job := ThreadJob(q, own, args.arena.View(), g, from, orders, heads);
    cycle, tasks := [], [];
    orders' := orders;
    assert heads + cycle == heads;
    assert DrawnSoFar(args.View(), g, from, from, orders, orders', 0, q);
    ReachesSelf(BUILD, own, Local([], Threading(0)), job.was);
    var par := 0;
    while par < kind.parallelism
      invariant 0 <= par <= kind.parallelism
      invariant ThreadSoFar(args, kind, long, job, rng.used, cycle, orders', tasks, par)
    {
      cycle, orders', tasks := NextChase(args, kind, threadNum, nrThreads, long, rng, par, cycle, job, orders', tasks);
      par := par + 1;
    }
  }

  /** What does not change while a thread builds its chases: the rows of a chase, the addresses of the
      thread, the memory, words and chases it starts with. */
  datatype ThreadJob = ThreadJob(q: nat, own: set<nat>, was: Memory, g: Source, from: nat, orders: seq<seq<nat>>,
                                 heads: seq<nat>)

  /** The first par chases of the thread. */
  ghost predicate ThreadSoFar(args: ChaseArgs, kind: ChaseKind, long: bool, job: ThreadJob, used: nat,
                              cycle: seq<nat>, orders: seq<seq<nat>>, tasks: seq<Task>, par: nat)
    requires Ready(args) && 0 < args.View().NrElts()
    reads args, args.arena, args.arena.bytes
  {
    var m, first := args.arena.View(), |job.heads|;
    |cycle| == par && Progress(args, kind, long, m, job.q, orders, job.heads + cycle)
    && TasksRun(job.own, tasks, job.was, m)
    && DrawnSoFar(args.View(), job.g, job.from, used, job.orders, orders, par, job.q)
    && 0 <= first * job.q && 0 <= par * job.q
    && OnlyRowObjectsChanged(args.View(), kind.objectSize, first * job.q, par * job.q, job.was, m)
  }

  /** One chase more. */
  method NextChase(args: ChaseArgs, kind: ChaseKind, threadNum: nat, nrThreads: nat, long: bool, rng: Rng, par: nat,
                   cycle: seq<nat>, ghost job: ThreadJob, ghost orders: seq<seq<nat>>, ghost tasks: seq<Task>)
    returns (cycle': seq<nat>, ghost orders': seq<seq<nat>>, ghost tasks': seq<Task>)
    requires Configured(args, kind, nrThreads) && threadNum < nrThreads && par < kind.parallelism
    requires job.q == RowsPerChase(args.nrMixerIndices, kind.parallelism * nrThreads, long)
    requires |job.heads| == kind.parallelism * threadNum && job.g == Source(args.generator, rng.draws)
    requires 0 <= |job.heads| * job.q && 0 <= kind.parallelism * job.q
    requires OwnsObjects(job.own, args.View(), kind.objectSize, |job.heads| * job.q, kind.parallelism * job.q)
    requires ThreadSoFar(args, kind, long, job, rng.used, cycle, orders, tasks, par)
    modifies args.arena.bytes, rng
    ensures ThreadSoFar(args, kind, long, job, rng.used, cycle', orders', tasks', par + 1)
  {
    var chases, k := kind.parallelism * nrThreads, kind.parallelism * threadNum + par;
    MixerIndexBelow(kind.parallelism, nrThreads, threadNum, par);
    OwnsChase(job.own, args.View(), kind.objectSize, |job.heads|, par, kind.parallelism, job.q);
    ghost var before, used := args.arena.View(), rng.used;
    var head;
    ghost var order, task;
    head, order, task := OneChase(args, kind, chases, long, k, rng, orders, job.heads + cycle, job.own);
    OneMoreDrawn(args.View(), job.g, job.from, used, rng.used, job.orders, orders, par, job.q, order);
    OneMoreTask(job.own, tasks, task, job.was, before, args.arena.View());
    RowsAdded(args.View(), kind.objectSize, |job.heads|, par, job.q, job.was, before, args.arena.View());
    assert job.heads + cycle + [head] == job.heads + (cycle + [head]);
    cycle', orders', tasks' := cycle + [head], orders + [order], tasks + [task];
  }

  lemma OwnsChase(own: set<nat>, l: ArenaLayout, size: nat, first: nat, par: nat, parallelism: nat, q: nat)
    requires 0 < l.stride && 0 < l.nrMixerIndices && 0 < l.nrMixers && par < parallelism
    requires 0 <= first * q && 0 <= parallelism * q && OwnsObjects(own, l, size, first * q, parallelism * q)
    ensures 0 <= (first + par) * q && OwnsObjects(own, l, size, (first + par) * q, q)
  {
    assert (first + par) * q == first * q + par * q;
    MultiplesApart(par, parallelism, q);
    MulMono(0, par, q);
  }

  /** Generate chase number k of the run, and rewrite it. */
  method OneChase(args: ChaseArgs, kind: ChaseKind, chases: nat, long: bool, k: nat, rng: Rng,
                  ghost orders: seq<seq<nat>>, ghost heads: seq<nat>, ghost own: set<nat>)
    returns (head: nat, ghost order: seq<nat>, ghost task: Task)
    requires Ready(args) && Fits(args.View(), kind.objectSize) && kind.Valid() && 0 < args.View().NrElts()
    requires k == |heads| && k < chases <= args.nrMixerIndices
    requires var q := RowsPerChase(args.nrMixerIndices, chases, long);
             Progress(args, kind, long, args.arena.View(), q, orders, heads)
             && 0 <= k * q && OwnsObjects(own, args.View(), kind.objectSize, k * q, q)
    modifies args.arena.bytes, rng
    ensures var q := RowsPerChase(args.nrMixerIndices, chases, long);
            Progress(args, kind, long, args.arena.View(), q, orders + [order], heads + [head])
            && DrawnFrom(args.View(), Source(args.generator, rng.draws), old(rng.used), rng.used, order, q)
            && OnlyRowObjectsChanged(args.View(), kind.objectSize, k * q, q, old(args.arena.View()), args.arena.View())
    ensures Builds(own, task, Threading(0), old(args.arena.View()), TaskDone, args.arena.View())
  {
    ghost var q := RowsPerChase(args.nrMixerIndices, chases, long);
    ChaseRows(args.nrMixerIndices, chases, long, k);
    ghost var was := args.arena.View();
    assert NeedsZeros(kind, long) ==> ObjectsZero(args.View(), kind.objectSize, k * q, q, was);
    ghost var row0, iterations;
    head, order, row0, iterations, task := GenerateOne(args, kind.objectSize, chases, long, k, rng, own, kind.rewrite);
    ghost var mid := args.arena.View();
    var size := RewriteOne(args, kind, head, was, order, row0, iterations, own, task);
    BuildsTrans(own, task, Threading(0), was, Rewriting(task), mid, TaskDone, args.arena.View());
    ChangesCompose(args.View(), kind.objectSize, row0, q, row0, q, row0, q, was, mid, args.arena.View());
    OneMoreChase(args, kind, long, was, args.arena.View(), q, orders, heads, order, head);
  }

  lemma RowsAdded(l: ArenaLayout, size: nat, first: nat, par: nat, q: nat, m: Memory, v: Memory, w: Memory)
    requires 0 < l.stride && 0 < l.nrMixerIndices && 0 < l.nrMixers
    requires 0 <= first * q && 0 <= par * q && 0 <= (first + par) * q
    requires OnlyRowObjectsChanged(l, size, first * q, par * q, m, v)
             && OnlyRowObjectsChanged(l, size, (first + par) * q, q, v, w)
    ensures 0 <= (par + 1) * q && OnlyRowObjectsChanged(l, size, first * q, (par + 1) * q, m, w)
  {
    assert (first + par) * q == first * q + par * q && (par + 1) * q == par * q + q;
    ChangesCompose(l, size, first * q, par * q, (first + par) * q, q, first * q, (par + 1) * q, m, v, w);
  }

  lemma MixerIndexBelow(parallelism: nat, nrThreads: nat, threadNum: nat, par: nat)
    requires threadNum < nrThreads && par < parallelism
    ensures 0 <= parallelism * threadNum + par < parallelism * nrThreads
  {
    BlockIndex(threadNum, par, nrThreads, parallelism);
  }
}
