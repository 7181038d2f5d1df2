/** convert_pointers_to_branches (multichase/br_asm.c): the walk that overwrites the ring, and the
    exact balance of the chunks. */
module BranchCompiler {
  import opened Wrappers
  import opened Numbers
  import opened ChunkSize
  import opened Memory
  import opened Encoding
  import opened Accesses
  import opened Builder
  import opened Permutations
  import opened Chase
  import opened BranchCode

  // ----- the walk

  /** The nodes are 16-byte objects inside the memory, at least 16 bytes apart. */
  ghost predicate NodeRing(m: Memory, ring: seq<nat>) {
    IsRing(m, ring) && Spaced(ring, OBJECT_SIZE)
    && forall i | 0 <= i < |ring| :: m.Has(ring[i], OBJECT_SIZE)
  }

  ghost predicate OwnsNodes(own: set<nat>, ring: seq<nat>) {
    forall i | 0 <= i < |ring| :: Covered(own, ring[i], OBJECT_SIZE)
  }

  /** Number of cells of the ring, by walking it once. */
  method CycleLen(arena: Arena, head: nat, ghost ring: seq<nat>, ghost own: set<nat>, ghost task: Task)
    returns (count: nat)
    requires IsRing(arena.View(), ring) && head == ring[0]
    requires OwnsNodes(own, ring) && task.head == head
    ensures count == |ring|
    ensures Builds(own, task, MeasuringFirst, arena.View(), Measuring(head, count), arena.View())
  {
    ghost var m := arena.View();
    BuildsNothing(own, task, MeasuringFirst, m);
    count := 1;
    var next := arena.Load(head);
    DidRead(own, task, MeasuringFirst, m, MeasuringFirst, m, head, PTR_SIZE);
    while next != head
      invariant 1 <= count <= |ring| && next == ring[Next(count - 1, |ring|)]
      invariant next == head <==> count == |ring|
      invariant Builds(own, task, MeasuringFirst, m, Measuring(next, count), m)
      decreases |ring| - count
    {
      DidRead(own, task, MeasuringFirst, m, Measuring(next, count), m, next, PTR_SIZE);
      count := count + 1;
      next := arena.Load(next);
      assert count < |ring| ==> ring[0] != ring[count];
    }
  }

  /** movabs $imm64, %rax */
  method EmitMovImm64Rax(arena: Arena, p: nat, imm64: nat) returns (q: nat)
    requires arena.Valid() && arena.View().Has(p, MOV_LEN) && imm64 < ADDRESS_LIMIT
    modifies arena.bytes
    ensures q == p + MOV_LEN
    ensures Stored(old(arena.View()), arena.View(), p, [0x48, 0xb8] + ToBytes(imm64, PTR_SIZE))
  {
    arena.StoreByte(p, 0x48);
    arena.StoreByte(p + 1, 0xb8);
    ghost var m := arena.View();
    assert Stored(old(arena.View()), m, p, [0x48, 0xb8]);
    q := p + 2;
    ghost var s := ToBytes(imm64, PTR_SIZE);
    var i := 0;
    while i < PTR_SIZE
      invariant 0 <= i <= PTR_SIZE && q == p + 2 + i
      invariant arena.View().SameOutside(m, p + 2, PTR_SIZE)
      invariant forall k | 0 <= k < i :: s[k] == arena.View().Byte(p + 2 + k)
    {
      ToBytesAt(imm64, PTR_SIZE, i);
      arena.StoreByte(q, imm64 / Pow256(i) % 256);
      q := q + 1;
      i := i + 1;
    }
    StoredTwice(old(arena.View()), m, arena.View(), p, [0x48, 0xb8], s);
  }

  /** jmp *%rax */
  method EmitJmpToRax(arena: Arena, p: nat)
    requires arena.View().Has(p, 2)
    modifies arena.bytes
    ensures Stored(old(arena.View()), arena.View(), p, [0xff, 0xe0])
  {
    arena.StoreByte(p, 0xff);
    arena.StoreByte(p + 1, 0xe0);
  }

  /** ret */
  method EmitRet(arena: Arena, p: nat)
    requires arena.View().Has(p, 1)
    modifies arena.bytes
    ensures Stored(old(arena.View()), arena.View(), p, [0xc3])
  {
    arena.StoreByte(p, 0xc3);
  }

  /** The bytes of a node's code are its code. */
  lemma CodeStored(m: Memory, w: Memory, p: nat, next: nat, last: bool)
    requires m.Has(p, BR_CODE_LEN) && next < ADDRESS_LIMIT && Stored(m, w, p, NodeCode(next, last))
    ensures Code(w, p, next, last) && w.SameOutside(m, p, BR_CODE_LEN)
  {
    var code := NodeCode(next, last);
    forall i | 0 <= i < PTR_SIZE
      ensures w.Byte(p + 2 + i) == ToBytes(next, PTR_SIZE)[i]
    {
      assert w.Byte(p + (2 + i)) == code[2 + i];
    }
    LoadIs(w, p + 2, next);
    assert w.Byte(p) == code[0] && w.Byte(p + 1) == code[1] && w.Byte(p + MOV_LEN) == code[MOV_LEN];
    assert !last ==> w.Byte(p + (MOV_LEN + 1)) == code[MOV_LEN + 1];
  }

  /** Bytes 8 to 11 of the node are zero: there is room for code behind the pointer. */
  ghost predicate Roomy(m: Memory, p: nat) {
    m.Has(p, OBJECT_SIZE) && forall a | p + PTR_SIZE <= a < p + BR_CODE_LEN :: m.Byte(a) == 0
  }

  /** One node: test the room behind the pointer, then overwrite pointer and room by code. */
  method CompileNode(arena: Arena, p: nat, last: bool) returns (ok: bool, next: nat)
    requires arena.Valid() && arena.View().Has(p, OBJECT_SIZE)
    modifies arena.bytes
    ensures next == old(arena.View()).Load(p) < ADDRESS_LIMIT
    ensures ok <==> Roomy(old(arena.View()), p)
    ensures ok ==> Stored(old(arena.View()), arena.View(), p, NodeCode(next, last))
    ensures !ok ==> arena.View() == old(arena.View())
  {
    PointerBytes();
    next := arena.Load(p);
    var i := PTR_SIZE;
    while i < BR_CODE_LEN
      invariant PTR_SIZE <= i <= BR_CODE_LEN
      invariant forall a | p + PTR_SIZE <= a < p + i :: arena.View().Byte(a) == 0
      invariant arena.View() == old(arena.View())
    {
      if arena.bytes[p + i - arena.base] != 0 {
        assert arena.View().Byte(p + i) != 0;
        return false, next;
      }
      assert arena.View().Byte(p + i) == 0;
      i := i + 1;
    }
    EmitNode(arena, p, next, last);
    return true, next;
  }

  method EmitNode(arena: Arena, p: nat, next: nat, last: bool)
    requires arena.Valid() && arena.View().Has(p, BR_CODE_LEN) && next < ADDRESS_LIMIT
    modifies arena.bytes
    ensures Stored(old(arena.View()), arena.View(), p, NodeCode(next, last))
  {
    var q := EmitMovImm64Rax(arena, p, next);
    ghost var mid, mov := arena.View(), [0x48, 0xb8] + ToBytes(next, PTR_SIZE);
    if last {
      EmitRet(arena, q);
      StoredTwice(old(arena.View()), mid, arena.View(), p, mov, [0xc3]);
    } else {
      EmitJmpToRax(arena, q);
      StoredTwice(old(arena.View()), mid, arena.View(), p, mov, [0xff, 0xe0]);
    }
  }

  /** Nodes before i are compiled, the others are as they were. */
  ghost predicate CompiledSoFar(was: Memory, m: Memory, ring: seq<nat>, starts: seq<nat>, i: nat) {
    was.base == m.base && |was.bytes| == |m.bytes|
    && forall k | 0 <= k < |ring| :: NodeState(was, m, ring, starts, i, k)
  }

  ghost predicate NodeState(was: Memory, m: Memory, ring: seq<nat>, starts: seq<nat>, i: nat, k: nat)
    requires k < |ring| && was.base == m.base && |was.bytes| == |m.bytes|
  {
    was.Has(ring[k], OBJECT_SIZE)
    && if k < i then Code(m, ring[k], ring[Next(k, |ring|)], k + 1 in starts) else SameNode(was, m, ring[k])
  }

  ghost predicate SameNode(was: Memory, m: Memory, p: nat)
    requires was.Has(p, OBJECT_SIZE) && was.base == m.base && |was.bytes| == |m.bytes|
  {
    forall a | p <= a < p + OBJECT_SIZE :: m.Byte(a) == was.Byte(a)
  }

  lemma SameNodeMeans(was: Memory, m: Memory, p: nat)
    requires was.base == m.base && |was.bytes| == |m.bytes| && was.Has(p, OBJECT_SIZE) && SameNode(was, m, p)
    ensures m.Load(p) == was.Load(p) && (Roomy(m, p) <==> Roomy(was, p))
  {
    LoadFrame(was, m, p);
  }

  /** Compiling node i; `starts'` adds the boundary i+1 if the node ends a chunk. */
  lemma CompiledOneMore(was: Memory, m: Memory, w: Memory, ring: seq<nat>, starts: seq<nat>, starts': seq<nat>, i: nat)
    requires Spaced(ring, OBJECT_SIZE) && i < |ring| && CompiledSoFar(was, m, ring, starts, i)
    requires w.SameOutside(m, ring[i], BR_CODE_LEN)
    requires forall x | x <= i :: x in starts' <==> x in starts
    requires Code(w, ring[i], ring[Next(i, |ring|)], i + 1 in starts')
    ensures CompiledSoFar(was, w, ring, starts', i + 1)
  {
    var i' := i + 1;
    forall k | 0 <= k < |ring|
      ensures NodeState(was, w, ring, starts', i', k)
    {
      assert NodeState(was, m, ring, starts, i, k);
      if k != i {
        assert ring[i] + OBJECT_SIZE <= ring[k] || ring[k] + OBJECT_SIZE <= ring[i] by { assert i < k || k < i; }
        NodeKept(m, w, ring[i], ring[k], ring[Next(k, |ring|)], k + 1 in starts);
      } else {
        assert NodeState(was, m, ring, starts, i, i);
      }
    }
  }

  lemma NodeKept(m: Memory, w: Memory, p: nat, q: nat, next: nat, last: bool)
    requires w.SameOutside(m, p, BR_CODE_LEN) && m.Has(q, OBJECT_SIZE)
    requires p + OBJECT_SIZE <= q || q + OBJECT_SIZE <= p
    ensures SameNode(m, w, q)
    ensures Code(m, q, next, last) ==> Code(w, q, next, last)
  {
    assert SameNode(m, w, q);
    if Code(m, q, next, last) {
      LoadFrame(m, w, q + 2);
    }
  }

  // ----- the balance of the chunks

  /** In front of a chunk: `remain` nodes can be split into `chunks` chunks of s or s+1 nodes. */
  predicate Balanced(remain: nat, chunks: nat, s: nat) {
    chunks * s <= remain <= chunks * s + chunks
  }

  /** Taking floor(remain / chunks) nodes as the next chunk keeps the balance, and never divides by zero. */
  lemma TakeChunk(remain: nat, chunks: nat, s: nat)
    requires Balanced(remain, chunks, s) && 0 < remain && 0 < s
    ensures 0 < chunks
    ensures var t := remain / chunks;
            s <= t <= s + 1 && t <= remain && Balanced(remain - t, chunks - 1, s)
  {
    ChunkProducts(chunks, s);
    ChunkShare(remain, chunks, s);
  }

  lemma ChunkShare(remain: nat, chunks: nat, s: nat)
    requires Balanced(remain, chunks, s) && 0 < chunks
    ensures remain / chunks == if remain == chunks * s + chunks then s + 1 else s
  {
    ChunkProducts(chunks, s);
    var t := if remain == chunks * s + chunks then s + 1 else s;
    DivModUnique(remain, chunks, t, remain - t * chunks);
  }

  lemma ChunkProducts(chunks: nat, s: nat)
    ensures chunks == 0 ==> chunks * s == 0
    ensures (chunks - 1) * s == chunks * s - s
    ensures s * chunks == chunks * s && (s + 1) * chunks == chunks * s + chunks
  {}

  lemma BalancedAtStart(n: nat, s: nat)
    requires Chunkable(n, s)
    ensures Balanced(n, n / s, s)
  {}

  lemma BalancedAtEnd(chunks: nat, s: nat)
    requires Balanced(0, chunks, s) && 0 < s
    ensures chunks == 0
  {
    MulMono(1, s, chunks);
  }

  datatype ConvertError = NotEnoughSpace

  /** State of the chunking in front of node i: `starts` are the boundaries so far, of the
      current chunk chunkCount nodes are still to come. */
  ghost predicate Chunking(n: nat, s: nat, i: nat, c: Counters, starts: seq<nat>) {
    0 < s && i <= n && c.remain == n - i && 1 <= |starts| && starts[0] == 0 && CutSizes(starts, s)
    && (forall x | x in starts :: x <= i)
    && |starts| - 1 + c.chunksRemaining == n / s
    && if c.chunkCount == 0 then starts[|starts| - 1] == i && Balanced(c.remain, c.chunksRemaining, s)
       else c.chunkCount <= c.remain && 0 < c.chunksRemaining
            && Balanced(c.remain - c.chunkCount, c.chunksRemaining - 1, s)
            && starts[|starts| - 1] + s <= i + c.chunkCount <= starts[|starts| - 1] + s + 1
  }

  /** A new chunk is opened where the count has run out. */
  lemma OpenChunk(n: nat, s: nat, i: nat, c: Counters, starts: seq<nat>)
    requires Chunking(n, s, i, c, starts) && c.chunkCount == 0 && i < n
    ensures 0 < c.chunksRemaining && 0 < c.remain / c.chunksRemaining
    ensures Chunking(n, s, i, c.(chunkCount := c.remain / c.chunksRemaining), starts)
  {
    TakeChunk(c.remain, c.chunksRemaining, s);
  }

  /** One node of the current chunk is done. */
  lemma ChunkNode(n: nat, s: nat, i: nat, c: Counters, starts: seq<nat>)
    requires 0 < c.chunkCount && i < n && Chunking(n, s, i, c, starts)
    ensures Chunking(n, s, i + 1, TakeNode(c), if c.chunkCount == 1 then starts + [i + 1] else starts)
  {
    if c.chunkCount == 1 {
      var starts' := starts + [i + 1];
      forall j: nat | j + 1 < |starts'|
        ensures CutSize(starts', s, j)
      {
        if j + 1 < |starts| {
          assert CutSize(starts, s, j);
        }
      }
    }
  }

  /** Where the program of the walk is in front of node i. */
  function NodeAt(ring: seq<nat>, i: nat, c: Counters): Pc {
    if i < |ring| then NodeStarting(ring[i], c) else TaskDone
  }

  /** The ring has been compiled for the requested chunk size: floor(R/s) chunks of s or s+1 nodes, or
      one chunk if the request is not shorter than the ring. */
  ghost predicate Converted(m: Memory, ring: seq<nat>, chunkSize: nat, s: nat, starts: seq<nat>) {
    ChunkSizeIs(|ring|, chunkSize, s) && (|ring| <= chunkSize ==> starts == [0, |ring|])
    && GoodCuts(starts, |ring|, s) && |starts| - 1 == |ring| / s && Compiled(m, ring, starts)
  }

  /** Overwrite the ring by branch code. On success every call of the code executes one of the
      chunks; the returned size is the smallest number of nodes of a chunk. */
  method ConvertPointersToBranches(arena: Arena, head: nat, chunkSize: nat, ghost ring: seq<nat>, ghost own: set<nat>,
                                   ghost task: Task)
    returns (r: Result<nat, ConvertError>, ghost starts: seq<nat>)
    requires arena.Valid() && NodeRing(arena.View(), ring) && head == ring[0]
    requires 0 < chunkSize && 0 < BaseChunkSize(|ring|, chunkSize)
    requires OwnsNodes(own, ring) && task.rewrite == ToBranches(chunkSize) && task.head == head
    modifies arena.bytes
    ensures r.Success? <==> forall i | 0 <= i < |ring| :: Roomy(old(arena.View()), ring[i])
    ensures r.Success? ==> Converted(arena.View(), ring, chunkSize, r.value, starts)
    ensures OnlyObjectsChanged(old(arena.View()), arena.View(), ring, BR_CODE_LEN)
    ensures Builds(own, task, Rewriting(task), old(arena.View()), if r.Success? then TaskDone else Aborted,
                   arena.View())
  {
    ghost var was := arena.View();
    var remain := CycleLen(arena, head, ring, own, task);
    var size, c := ChooseChunks(remain, chunkSize);
    var baseChunkSize := size;
    starts := [0];
    ghost var walk := Walk(was, ring, size, own, task);
    WalkStarts(walk, chunkSize);
    var ok;
    ok, c, starts := ConvertNodes(arena, head, c, walk, starts);
    if !ok {
      return Failure(NotEnoughSpace), starts;
    }
    WalkEnds(walk, arena.View(), c, starts, chunkSize);
    r := Success(baseChunkSize);
  }

  /** The walk round the ring. */
  method ConvertNodes(arena: Arena, head: nat, c: Counters, ghost walk: Walk, ghost starts: seq<nat>)
    returns (ok: bool, c': Counters, ghost starts': seq<nat>)
    requires arena.Valid() && NodeRing(walk.was, walk.ring) && head == walk.ring[0]
    requires OwnsNodes(walk.own, walk.ring) && walk.task.head == head
    requires Converting(walk, arena.View(), 0, c, starts)
    modifies arena.bytes
    ensures OnlyObjectsChanged(walk.was, arena.View(), walk.ring, BR_CODE_LEN)
    ensures !ok ==> exists i | 0 <= i < |walk.ring| :: !Roomy(walk.was, walk.ring[i])
    ensures !ok ==> Builds(walk.own, walk.task, MeasuringFirst, walk.was, Aborted, arena.View())
    ensures ok ==> Converting(walk, arena.View(), |walk.ring|, c', starts')
  {
    ghost var ring, n := walk.ring, |walk.ring|;
    c', starts' := c, starts;
    var p := head;
    ghost var i := 0;
    var done := false;
    while !done
      invariant 0 <= i <= n && (done <==> i == n) && (!done ==> p == ring[i])
      invariant Converting(walk, arena.View(), i, c', starts')
      decreases n - i
    {
      ok, p, c', starts' := ConvertNode(arena, p, c', walk, i, starts');
      if !ok {
        return;
      }
      i := i + 1;
      done := p == head;
      assert i < n ==> ring[0] != ring[i];
    }
    ok := true;
  }

  /** The chunk size, and the counters before the first chunk. */
  method ChooseChunks(remain: nat, chunkSize: nat) returns (size: nat, c: Counters)
    requires 0 < remain && 0 < chunkSize && 0 < BaseChunkSize(remain, chunkSize)
    ensures 0 < size == BaseChunkSize(remain, chunkSize) && c == Counters(remain, 0, remain / size)
    ensures ChunkSizeIs(remain, chunkSize, size)
  {
    size := if remain < chunkSize then remain else remain / Pow2(RoundedLog2(remain, chunkSize));
    ChunkSizeIsEnough(remain, chunkSize);
    BaseChunkSizeIs(remain, chunkSize);
    c := Counters(remain, 0, remain / size);
  }

  /** What does not change during the walk: the memory in front of it, the ring, the size of the
      chunks, the addresses of the thread and its chase. */
  datatype Walk = Walk(was: Memory, ring: seq<nat>, size: nat, own: set<nat>, task: Task)

  /** Everything the walk maintains in front of node i. */
  ghost predicate Converting(walk: Walk, m: Memory, i: nat, c: Counters, starts: seq<nat>) {
    Chunking(|walk.ring|, walk.size, i, c, starts)
    && CompiledSoFar(walk.was, m, walk.ring, starts, i) && OnlyObjectsChanged(walk.was, m, walk.ring, BR_CODE_LEN)
    && (forall k | 0 <= k < i && k < |walk.ring| :: Roomy(walk.was, walk.ring[k]))
    && Builds(walk.own, walk.task, MeasuringFirst, walk.was, NodeAt(walk.ring, i, c), m)
  }

  lemma WalkStarts(walk: Walk, chunkSize: nat)
    requires NodeRing(walk.was, walk.ring) && 0 < chunkSize && walk.size == BaseChunkSize(|walk.ring|, chunkSize)
    requires 0 < walk.size && walk.task.rewrite == ToBranches(chunkSize) && walk.task.head == walk.ring[0]
    requires Builds(walk.own, walk.task, MeasuringFirst, walk.was, Measuring(walk.ring[0], |walk.ring|), walk.was)
    ensures Converting(walk, walk.was, 0, Counters(|walk.ring|, 0, |walk.ring| / walk.size), [0])
  {
    ChunkSizeIsEnough(|walk.ring|, chunkSize);
    BalancedAtStart(|walk.ring|, walk.size);
    DidSkip(walk.own, walk.task, MeasuringFirst, walk.was, Measuring(walk.ring[0], |walk.ring|), walk.was);
  }

  lemma WalkEnds(walk: Walk, m: Memory, c: Counters, starts: seq<nat>, chunkSize: nat)
    requires 0 < |walk.ring| && 0 < chunkSize && walk.size == BaseChunkSize(|walk.ring|, chunkSize)
    requires Converting(walk, m, |walk.ring|, c, starts)
    ensures Converted(m, walk.ring, chunkSize, walk.size, starts)
  {
    ChunkingDone(|walk.ring|, walk.size, c, starts);
    AllCompiled(walk.was, m, walk.ring, starts);
    BaseChunkSizeIs(|walk.ring|, chunkSize);
    OneChunkOnly(starts, |walk.ring|, walk.size);
  }

  /** One round of the walk. */
  method ConvertNode(arena: Arena, p: nat, c: Counters, ghost walk: Walk, ghost i: nat, ghost starts: seq<nat>)
    returns (ok: bool, next: nat, c': Counters, ghost starts': seq<nat>)
    requires arena.Valid() && NodeRing(walk.was, walk.ring) && i < |walk.ring| && p == walk.ring[i]
    requires OwnsNodes(walk.own, walk.ring) && walk.task.head == walk.ring[0]
    requires Converting(walk, arena.View(), i, c, starts)
    modifies arena.bytes
    ensures !ok ==> !Roomy(walk.was, walk.ring[i])
    ensures !ok ==> Builds(walk.own, walk.task, MeasuringFirst, walk.was, Aborted, arena.View())
    ensures OnlyObjectsChanged(walk.was, arena.View(), walk.ring, BR_CODE_LEN)
    ensures ok ==> next == walk.ring[Next(i, |walk.ring|)]
    ensures ok ==> Converting(walk, arena.View(), i + 1, c', starts')
  {
    starts' := starts;
    c' := NodesInChunk(c, |walk.ring|, walk.size, i, starts);
    ghost var before := arena.View();
    NodeBefore(walk.was, before, walk.ring, starts, i);
    ok, next := CompileNode(arena, p, c'.chunkCount == 1);
    if !ok {
      NodeStops(walk.was, before, walk.ring, i, c, c', walk.own, walk.task);
      return;
    }
    starts' := if c'.chunkCount == 1 then starts + [i + 1] else starts;
    NodeConverted(walk, before, arena.View(), i, c, c', starts, starts');
    c' := TakeNode(c');
  }

  /** Node i is as it was before the walk. */
  lemma NodeBefore(was: Memory, m: Memory, ring: seq<nat>, starts: seq<nat>, i: nat)
    requires NodeRing(was, ring) && i < |ring| && CompiledSoFar(was, m, ring, starts, i)
    ensures m.Has(ring[i], OBJECT_SIZE) && m.Load(ring[i]) == ring[Next(i, |ring|)]
            && (Roomy(m, ring[i]) <==> Roomy(was, ring[i]))
  {
    assert NodeState(was, m, ring, starts, i, i);
    SameNodeMeans(was, m, ring[i]);
  }

  /** At the start of a chunk, share out the remaining nodes over the remaining chunks. */
  method NodesInChunk(c: Counters, ghost n: nat, ghost s: nat, ghost i: nat, ghost starts: seq<nat>)
    returns (c': Counters)
    requires i < n && Chunking(n, s, i, c, starts)
    ensures Opened(c, c') && Chunking(n, s, i, c', starts)
  {
    c' := c;
    if c.chunkCount == 0 {
      OpenChunk(n, s, i, c, starts);
      c' := c.(chunkCount := c.remain / c.chunksRemaining);
    }
  }

  /** The counters in front of a node, with a chunk open. */
  predicate Opened(c: Counters, c': Counters) {
    (c.chunkCount == 0 ==> 0 < c.chunksRemaining) && 0 < c'.chunkCount
    && c' == if c.chunkCount == 0 then c.(chunkCount := c.remain / c.chunksRemaining) else c
  }

  /** After node i has been compiled, with the counters of the walk decreased. */
  lemma NodeConverted(walk: Walk, m: Memory, w: Memory, i: nat, c: Counters, c': Counters,
                      starts: seq<nat>, starts': seq<nat>)
    requires NodeRing(walk.was, walk.ring) && i < |walk.ring|
    requires OwnsNodes(walk.own, walk.ring) && walk.task.head == walk.ring[0]
    requires Converting(walk, m, i, c, starts)
    requires Opened(c, c') && Chunking(|walk.ring|, walk.size, i, c', starts)
    requires Roomy(m, walk.ring[i]) && walk.ring[Next(i, |walk.ring|)] < ADDRESS_LIMIT
    requires Stored(m, w, walk.ring[i], NodeCode(walk.ring[Next(i, |walk.ring|)], c'.chunkCount == 1))
    requires starts' == if c'.chunkCount == 1 then starts + [i + 1] else starts
    ensures Converting(walk, w, i + 1, TakeNode(c'), starts')
  {
    var was, ring := walk.was, walk.ring;
    ChunkNode(|ring|, walk.size, i, c', starts);
    NodeBefore(was, m, ring, starts, i);
    assert forall x | x <= i :: x in starts' <==> x in starts;
    NodeInMemory(was, m, w, ring, i, starts, starts');
    NodeProgram(was, m, w, ring, i, c, c', walk.own, walk.task);
  }

  lemma NodeInMemory(was: Memory, m: Memory, w: Memory, ring: seq<nat>, i: nat, starts: seq<nat>, starts': seq<nat>)
    requires NodeRing(was, ring) && i < |ring| && CompiledSoFar(was, m, ring, starts, i)
             && OnlyObjectsChanged(was, m, ring, BR_CODE_LEN)
    requires (forall k | 0 <= k < i :: Roomy(was, ring[k])) && Roomy(m, ring[i])
             && ring[Next(i, |ring|)] < ADDRESS_LIMIT
    requires Stored(m, w, ring[i], NodeCode(ring[Next(i, |ring|)], i + 1 in starts'))
    requires forall x | x <= i :: x in starts' <==> x in starts
    ensures CompiledSoFar(was, w, ring, starts', i + 1) && OnlyObjectsChanged(was, w, ring, BR_CODE_LEN)
    ensures forall k | 0 <= k < i + 1 && k < |ring| :: Roomy(was, ring[k])
  {
    NodeBefore(was, m, ring, starts, i);
    CodeStored(m, w, ring[i], ring[Next(i, |ring|)], i + 1 in starts');
    ObjectStore(was, m, w, ring, BR_CODE_LEN, i, ring[i], BR_CODE_LEN);
    CompiledOneMore(was, m, w, ring, starts, starts', i);
  }

  /** The same round as accesses of the program. */
  lemma NodeProgram(was: Memory, m: Memory, w: Memory, ring: seq<nat>, i: nat, c: Counters, c': Counters,
                    own: set<nat>, task: Task)
    requires i < |ring| && Distinct(ring) && OwnsNodes(own, ring) && task.head == ring[0]
    requires Builds(own, task, MeasuringFirst, was, NodeAt(ring, i, c), m)
    requires Opened(c, c') && 0 < c'.remain && 0 < c'.chunksRemaining
    requires Roomy(m, ring[i]) && m.Load(ring[i]) == ring[Next(i, |ring|)]
    requires Stored(m, w, ring[i], NodeCode(ring[Next(i, |ring|)], c'.chunkCount == 1))
    ensures Builds(own, task, MeasuringFirst, was, NodeAt(ring, i + 1, TakeNode(c')), w)
  {
    var p, next := ring[i], ring[Next(i, |ring|)];
    DidSkip(own, task, MeasuringFirst, was, NodeStarting(p, c), m);
    DidNode(own, task, MeasuringFirst, was, m, w, p, next, c');
    assert i + 1 < |ring| ==> ring[0] != ring[i + 1];
  }

  /** The program stops where the compiler does. */
  lemma NodeStops(was: Memory, m: Memory, ring: seq<nat>, i: nat, c: Counters, c': Counters, own: set<nat>, task: Task)
    requires i < |ring| && OwnsNodes(own, ring) && m.Has(ring[i], OBJECT_SIZE) && !Roomy(m, ring[i])
    requires Builds(own, task, MeasuringFirst, was, NodeAt(ring, i, c), m) && Opened(c, c')
    ensures Builds(own, task, MeasuringFirst, was, Aborted, m)
  {
    var p := ring[i];
    var a :| p + PTR_SIZE <= a < p + BR_CODE_LEN && m.Byte(a) != 0;
    DidSkip(own, task, MeasuringFirst, was, NodeStarting(p, c), m);
    NodeAborts(own, task, MeasuringFirst, was, m, p, m.Load(p), c', a);
  }

  /** After the last node no chunk is open and none is left to make. */
  lemma ChunkingDone(n: nat, s: nat, c: Counters, starts: seq<nat>)
    requires 0 < n && Chunking(n, s, n, c, starts)
    ensures c.chunkCount == 0 && c.chunksRemaining == 0
    ensures GoodCuts(starts, n, s) && |starts| - 1 == n / s
  {
    BalancedAtEnd(c.chunksRemaining, s);
  }

  /** A chunk size of the whole ring leaves one chunk. */
  lemma OneChunkOnly(starts: seq<nat>, n: nat, s: nat)
    requires 0 < n && GoodCuts(starts, n, s) && |starts| - 1 == n / s
    ensures s == n ==> starts == [0, n]
  {
    DivModUnique(n, n, 1, 0);
  }

  lemma AllCompiled(was: Memory, m: Memory, ring: seq<nat>, starts: seq<nat>)
    requires 0 < |ring| && CompiledSoFar(was, m, ring, starts, |ring|)
    ensures Compiled(m, ring, starts)
  {
    forall k | 0 <= k < |ring|
      ensures Code(m, ring[k], ring[Next(k, |ring|)], k + 1 in starts)
    {
      assert NodeState(was, m, ring, starts, |ring|, k);
    }
  }
}
