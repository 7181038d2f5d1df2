/** The pointer-to-branch compiler (multichase/br_asm.c, x86-64): the cells of a ring are
    overwritten by code that jumps from node to node and returns after every chunk. */
module BranchCode {
  import opened Wrappers
  import opened Numbers
  import opened Memory
  import opened Encoding
  import opened Chase

  const OBJECT_SIZE: nat := 16

  // ----- the machine

  datatype Instr = MovRax(imm: nat) | JmpRax | Ret | Illegal

  function Decode(m: Memory, ip: nat): Instr {
    if m.Has(ip, MOV_LEN) && m.Byte(ip) == 0x48 && m.Byte(ip + 1) == 0xb8 then MovRax(m.Load(ip + 2))
    else if m.Has(ip, 2) && m.Byte(ip) == 0xff && m.Byte(ip + 1) == 0xe0 then JmpRax
    else if m.Has(ip, 1) && m.Byte(ip) == 0xc3 then Ret
    else Illegal
  }

  /** Result of a call: the returned pointer and the nodes entered on the way (the addresses
      of the executed MOV instructions). Stuck: illegal code, or not back within the step bound. */
  datatype Outcome = Returned(rax: nat, visited: seq<nat>) | Stuck

  function Run(m: Memory, ip: nat, rax: nat, steps: nat): Outcome
    decreases steps
  {
    if steps == 0 then Stuck
    else match Decode(m, ip)
      case MovRax(imm) =>
        (match Run(m, ip + MOV_LEN, imm, steps - 1)
         case Returned(r, visited) => Returned(r, [ip] + visited)
         case Stuck => Stuck)
      case JmpRax => Run(m, rax, rax, steps - 1)
      case Ret => Returned(rax, [])
      case Illegal => Stuck
  }

  /** chase_branch: call the code, then call what it returned, and so on. */
  function Calls(m: Memory, entry: nat, calls: nat, steps: nat): Outcome
    decreases calls
  {
    if calls == 0 then Returned(entry, [])
    else match Calls(m, entry, calls - 1, steps)
      case Stuck => Stuck
      case Returned(fp, before) =>
        match Run(m, fp, 0, steps)
        case Stuck => Stuck
        case Returned(r, visited) => Returned(r, before + visited)
  }

  // ----- compiled nodes

  /** At p stands the code of a node: load the address of the next node, then return or jump. */
  ghost predicate Code(m: Memory, p: nat, next: nat, last: bool) {
    m.Has(p, BR_CODE_LEN)
    && m.Byte(p) == 0x48 && m.Byte(p + 1) == 0xb8 && m.Load(p + 2) == next
    && if last then m.Byte(p + MOV_LEN) == 0xc3 else m.Byte(p + MOV_LEN) == 0xff && m.Byte(p + MOV_LEN + 1) == 0xe0
  }

  /** Executing a node: one or two steps. */
  lemma RunNode(m: Memory, p: nat, next: nat, last: bool, rax: nat, steps: nat)
    requires Code(m, p, next, last) && 2 <= steps
    ensures last ==> Run(m, p, rax, steps) == Returned(next, [p])
    ensures !last ==> Run(m, p, rax, steps) ==
                      match Run(m, next, next, steps - 2)
                      case Returned(r, visited) => Returned(r, [p] + visited)
                      case Stuck => Stuck
  {
    assert Decode(m, p) == MovRax(next);
    assert Decode(m, p + MOV_LEN) == if last then Ret else JmpRax;
  }

  /** Chunk boundaries: 0 = starts[0] < starts[1] < ... = n, every chunk of s or s+1 nodes. */
  ghost predicate GoodCuts(starts: seq<nat>, n: nat, s: nat) {
    2 <= |starts| && 0 < s && starts[0] == 0 && starts[|starts| - 1] == n
    && CutSizes(starts, s)
  }

  ghost predicate CutSizes(starts: seq<nat>, s: nat) {
    forall j: nat | j + 1 < |starts| :: CutSize(starts, s, j)
  }

  ghost predicate CutSize(starts: seq<nat>, s: nat, j: nat)
    requires j + 1 < |starts|
  {
    starts[j] + s <= starts[j + 1] <= starts[j] + s + 1
  }

  /** All nodes are compiled; exactly the nodes before a boundary return. */
  ghost predicate Compiled(m: Memory, ring: seq<nat>, starts: seq<nat>) {
    |ring| > 0 && forall k | 0 <= k < |ring| :: Code(m, ring[k], ring[Next(k, |ring|)], k + 1 in starts)
  }

  lemma {:induction false} CutsIncrease(starts: seq<nat>, s: nat, i: nat, j: nat)
    requires CutSizes(starts, s) && i <= j < |starts|
    ensures starts[i] + (j - i) * s <= starts[j] <= starts[i] + (j - i) * (s + 1)
    decreases j
  {
    if i < j {
      CutsIncrease(starts, s, i, j - 1);
      assert CutSize(starts, s, j - 1);
      assert (j - i) * s == (j - 1 - i) * s + s && (j - i) * (s + 1) == (j - 1 - i) * (s + 1) + (s + 1);
    }
  }

  /** Between two consecutive boundaries there is no other. */
  lemma NoCutInside(starts: seq<nat>, s: nat, j: nat, x: nat)
    requires CutSizes(starts, s) && 0 < s && j + 1 < |starts| && starts[j] < x < starts[j + 1]
    ensures x !in starts
  {
    forall i | 0 <= i < |starts|
      ensures starts[i] != x
    {
      if i <= j {
        CutsIncrease(starts, s, i, j);
        MulMono(0, j - i, s);
      } else {
        CutsIncrease(starts, s, j + 1, i);
        MulMono(0, i - (j + 1), s);
      }
    }
  }

  /** The tail of a chunk: from node i to the boundary, then return the node after it. */
  lemma {:induction false} RunToCut(m: Memory, ring: seq<nat>, starts: seq<nat>, s: nat, j: nat, i: nat, rax: nat,
                                    steps: nat)
    requires Compiled(m, ring, starts) && GoodCuts(starts, |ring|, s)
    requires j + 1 < |starts| && starts[j] <= i < starts[j + 1] <= |ring|
    requires 2 * (starts[j + 1] - i) <= steps
    ensures Run(m, ring[i], rax, steps) ==
            Returned(ring[Next(starts[j + 1] - 1, |ring|)], ring[i..starts[j + 1]])
    decreases starts[j + 1] - i
  {
    assert Code(m, ring[i], ring[Next(i, |ring|)], i + 1 in starts);
    RunNode(m, ring[i], ring[Next(i, |ring|)], i + 1 in starts, rax, steps);
    if i + 1 < starts[j + 1] {
      NoCutInside(starts, s, j, i + 1);
      RunToCut(m, ring, starts, s, j, i + 1, ring[i + 1], steps - 2);
      assert ring[i..starts[j + 1]] == [ring[i]] + ring[i + 1..starts[j + 1]];
    } else {
      assert ring[i..starts[j + 1]] == [ring[i]];
    }
  }

  /** The chunk that call number q starts with. */
  function ChunkAt(chunks: nat, q: nat): (j: nat)
    requires 0 < chunks
    ensures j < chunks
  {
    if q == 0 then 0 else Next(ChunkAt(chunks, q - 1), chunks)
  }

  /** How many nodes q calls visit in all. */
  ghost function Visits(starts: seq<nat>, n: nat, s: nat, q: nat): (v: nat)
    requires GoodCuts(starts, n, s)
  {
    if q == 0 then 0
    else
      var j := ChunkAt(|starts| - 1, q - 1);
      assert CutSize(starts, s, j);
      Visits(starts, n, s, q - 1) + (starts[j + 1] - starts[j])
  }

  /** Every call visits s or s+1 nodes, so counting s per call undercounts by at most one a call. */
  lemma {:induction false} VisitsBracketed(starts: seq<nat>, n: nat, s: nat, q: nat)
    requires GoodCuts(starts, n, s)
    ensures q * s <= Visits(starts, n, s, q) <= q * s + q
  {
    if q != 0 {
      VisitsBracketed(starts, n, s, q - 1);
      var j := ChunkAt(|starts| - 1, q - 1);
      assert CutSize(starts, s, j);
      assert (q - 1) * s + s == q * s;
    }
  }

  /** With one chunk, every call visits the whole ring. */
  lemma {:induction false} VisitsOfOneChunk(n: nat, q: nat)
    requires 0 < n
    ensures GoodCuts([0, n], n, n) && ChunkAt(1, q) == 0
    ensures Visits([0, n], n, n, q) == q * n
  {
    assert forall j: nat | j + 1 < |[0, n]| :: CutSize([0, n], n, j);
    if q != 0 {
      VisitsOfOneChunk(n, q - 1);
      assert (q - 1) * n + n == q * n;
    }
  }

  /** q calls make some whole turns and end at the boundary that the next call starts from. */
  lemma {:induction false} VisitsPosition(starts: seq<nat>, n: nat, s: nat, q: nat) returns (turns: nat)
    requires GoodCuts(starts, n, s)
    ensures Visits(starts, n, s, q) == turns * n + starts[ChunkAt(|starts| - 1, q)]
  {
    turns := 0;
    if q != 0 {
      turns := VisitsPosition(starts, n, s, q - 1);
      if ChunkAt(|starts| - 1, q - 1) + 1 == |starts| - 1 {
        assert (turns + 1) * n == turns * n + n;
        turns := turns + 1;
      }
    }
  }

  /** The first v nodes of the endless walk round the ring. */
  ghost function Walk(ring: seq<nat>, v: nat): (w: seq<nat>)
    requires 0 < |ring|
    ensures |w| == v
    ensures forall t | 0 <= t < v :: w[t] == ring[t % |ring|]
  {
    seq(v, t requires 0 <= t < v => ring[t % |ring|])
  }

  lemma WalkStep(ring: seq<nat>, turns: nat, a: nat, b: nat)
    requires 0 < |ring| && a <= b <= |ring|
    ensures 0 <= turns * |ring|
    ensures Walk(ring, turns * |ring| + a) + ring[a..b] == Walk(ring, turns * |ring| + b)
  {
    var n := |ring|;
    MulMono(0, turns, n);
    var u, w := Walk(ring, turns * n + a) + ring[a..b], Walk(ring, turns * n + b);
    forall t | 0 <= t < |w|
      ensures u[t] == w[t]
    {
      if turns * n + a <= t {
        DivModUnique(t, n, turns, t - turns * n);
      }
    }
  }

  /** A call at the start of chunk j visits the chunk and returns the start of the next one. */
  ghost predicate ChunkRuns(m: Memory, ring: seq<nat>, starts: seq<nat>, j: nat, steps: nat)
    requires j + 1 < |starts|
  {
    starts[j] <= starts[j + 1] <= |ring| && starts[j] < |ring| && starts[Next(j, |starts| - 1)] < |ring|
    && Run(m, ring[starts[j]], 0, steps) ==
       Returned(ring[starts[Next(j, |starts| - 1)]], ring[starts[j]..starts[j + 1]])
  }

  lemma EveryChunkRuns(m: Memory, ring: seq<nat>, starts: seq<nat>, s: nat, j: nat, steps: nat)
    requires Compiled(m, ring, starts) && GoodCuts(starts, |ring|, s) && 2 * |ring| <= steps && j + 1 < |starts|
    ensures ChunkRuns(m, ring, starts, j, steps)
  {
    ChunkInRing(starts, |ring|, s, j);
    ChunkInRing(starts, |ring|, s, Next(j, |starts| - 1));
    RunToCut(m, ring, starts, s, j, starts[j], 0, steps);
  }

  /** Running the compiled code: after q calls, exactly Visits(q) nodes of the walk have been
      visited, in ring order, and the returned pointer is the next node. */
  lemma {:induction false} CallsWalkTheRing(m: Memory, ring: seq<nat>, starts: seq<nat>, s: nat, q: nat, steps: nat)
    requires GoodCuts(starts, |ring|, s)
    requires forall j: nat | j + 1 < |starts| :: ChunkRuns(m, ring, starts, j, steps)
    ensures starts[ChunkAt(|starts| - 1, q)] < |ring|
    ensures Calls(m, ring[0], q, steps) ==
            Returned(ring[starts[ChunkAt(|starts| - 1, q)]], Walk(ring, Visits(starts, |ring|, s, q)))
  {
    assert ChunkRuns(m, ring, starts, 0, steps);
    if q != 0 {
      CallsWalkTheRing(m, ring, starts, s, q - 1, steps);
      OneMoreChunk(m, ring, starts, s, q, steps);
    }
  }

  lemma OneMoreChunk(m: Memory, ring: seq<nat>, starts: seq<nat>, s: nat, q: nat, steps: nat)
    requires 0 < |ring| && GoodCuts(starts, |ring|, s) && 0 < q
             && ChunkRuns(m, ring, starts, ChunkAt(|starts| - 1, q - 1), steps)
    requires Calls(m, ring[0], q - 1, steps) ==
             Returned(ring[starts[ChunkAt(|starts| - 1, q - 1)]], Walk(ring, Visits(starts, |ring|, s, q - 1)))
    ensures starts[ChunkAt(|starts| - 1, q)] < |ring|
    ensures Calls(m, ring[0], q, steps) ==
            Returned(ring[starts[ChunkAt(|starts| - 1, q)]], Walk(ring, Visits(starts, |ring|, s, q)))
  {
    var j := ChunkAt(|starts| - 1, q - 1);
    WalkOneChunk(ring, starts, s, q, j);
    OneMoreCall(m, ring[0], q, steps, ring[starts[j]], Walk(ring, Visits(starts, |ring|, s, q - 1)),
                ring[starts[Next(j, |starts| - 1)]], ring[starts[j]..starts[j + 1]]);
  }

  lemma WalkOneChunk(ring: seq<nat>, starts: seq<nat>, s: nat, q: nat, j: nat)
    requires 0 < |ring| && GoodCuts(starts, |ring|, s) && 0 < q && j == ChunkAt(|starts| - 1, q - 1)
    ensures starts[j] <= starts[j + 1] <= |ring|
    ensures Walk(ring, Visits(starts, |ring|, s, q - 1)) + ring[starts[j]..starts[j + 1]] ==
              Walk(ring, Visits(starts, |ring|, s, q))
    ensures ChunkAt(|starts| - 1, q) == Next(j, |starts| - 1)
  {
    ChunkInRing(starts, |ring|, s, j);
    var turns := VisitsPosition(starts, |ring|, s, q - 1);
    WalkStep(ring, turns, starts[j], starts[j + 1]);
    var v := Visits(starts, |ring|, s, q);
    assert v == turns * |ring| + starts[j + 1];
  }

  lemma OneMoreCall(m: Memory, entry: nat, q: nat, steps: nat, fp: nat, before: seq<nat>, r: nat, visited: seq<nat>)
    requires 0 < q && Calls(m, entry, q - 1, steps) == Returned(fp, before)
             && Run(m, fp, 0, steps) == Returned(r, visited)
    ensures Calls(m, entry, q, steps) == Returned(r, before + visited)
  {}

  lemma ChunkInRing(starts: seq<nat>, n: nat, s: nat, j: nat)
    requires GoodCuts(starts, n, s) && j + 1 < |starts|
    ensures starts[j] < starts[j + 1] <= n
  {
    assert CutSize(starts, s, j);
    CutsIncrease(starts, s, j + 1, |starts| - 1);
    MulMono(0, |starts| - 1 - (j + 1), s);
  }

  /** A ring compiled as one chunk: every node but the last jumps, and one call visits the whole ring
      and returns the head. */
  lemma OneChunkIsOneTurn(m: Memory, ring: seq<nat>, steps: nat)
    requires Compiled(m, ring, [0, |ring|]) && 2 * |ring| <= steps
    ensures forall k | 0 <= k < |ring| :: Code(m, ring[k], ring[Next(k, |ring|)], k + 1 == |ring|)
    ensures Run(m, ring[0], 0, steps) == Returned(ring[0], ring)
  {
    var starts := [0, |ring|];
    assert forall j: nat | j + 1 < |starts| :: CutSize(starts, |ring|, j);
    forall k | 0 <= k < |ring|
      ensures Code(m, ring[k], ring[Next(k, |ring|)], k + 1 == |ring|)
    {
      assert k + 1 in starts <==> k + 1 == |ring|;
    }
    RunToCut(m, ring, starts, |ring|, 0, 0, 0, steps);
    assert ring[0..|ring|] == ring;
  }

  /** Meaning preservation: the compiled code visits the nodes that the pointer chase visited,
      in the same order, for any number of calls; and returns where the chase would go on. */
  lemma BranchesFollowPointers(before: Memory, after: Memory, ring: seq<nat>, starts: seq<nat>, s: nat, q: nat,
                               steps: nat)
    requires IsRing(before, ring)
    requires Compiled(after, ring, starts) && GoodCuts(starts, |ring|, s) && 2 * |ring| <= steps
    ensures var out := Calls(after, ring[0], q, steps);
            out.Returned? && q * s <= |out.visited| <= q * s + q
            && (forall t | 0 <= t < |out.visited| :: Follow(before, ring[0], t) == Some(out.visited[t]))
            && Follow(before, ring[0], |out.visited|) == Some(out.rax)
  {
    forall j: nat | j + 1 < |starts|
      ensures ChunkRuns(after, ring, starts, j, steps)
    {
      EveryChunkRuns(after, ring, starts, s, j, steps);
    }
    CallsWalkTheRing(after, ring, starts, s, q, steps);
    VisitsBracketed(starts, |ring|, s, q);
    var turns := VisitsPosition(starts, |ring|, s, q);
    var v, b := Visits(starts, |ring|, s, q), starts[ChunkAt(|starts| - 1, q)];
    DivModUnique(v, |ring|, turns, b);
    PointersWalk(before, ring, v);
  }

  /** The pointer chase makes the same walk. */
  lemma PointersWalk(before: Memory, ring: seq<nat>, v: nat)
    requires IsRing(before, ring)
    ensures forall t | 0 <= t < v :: Follow(before, ring[0], t) == Some(Walk(ring, v)[t])
    ensures 0 <= v % |ring| < |ring| && Follow(before, ring[0], v) == Some(ring[v % |ring|])
  {
    forall t | 0 <= t < v
      ensures Follow(before, ring[0], t) == Some(ring[t % |ring|])
    {
      FollowRing(before, ring, 0, t);
    }
    FollowFromHead(before, ring, v);
  }
}
