/** Rings of pointer cells, and generate_chase (multichase/permutation.c): every element of
    the arena is threaded into one cycle, TLB group by TLB group. */
module Chase {
  import opened Wrappers
  import opened Numbers
  import opened Memory
  import opened Permutations
  import opened Layout
  import opened Accesses
  import opened Builder

  // ----- rings

  /** Each cell of the ring points to the next one, the last to the first. */
  ghost predicate IsRing(m: Memory, ring: seq<nat>) {
    0 < |ring| && Distinct(ring)
    && (forall i | 0 <= i < |ring| :: m.Has(ring[i], PTR_SIZE))
    && forall i | 0 <= i < |ring| :: m.Load(ring[i]) == ring[Next(i, |ring|)]
  }

  /** The cells of the ring are at least d bytes apart. */
  ghost predicate Spaced(ring: seq<nat>, d: nat) {
    forall i, j | 0 <= i < j < |ring| :: ring[i] + d <= ring[j] || ring[j] + d <= ring[i]
  }

  /** What a chase does: k dependent loads. None where a load would leave the memory. */
  function Follow(m: Memory, p: nat, k: nat): Option<nat>
    decreases k
  {
    if k == 0 then Some(p)
    else if m.Has(p, PTR_SIZE) then Follow(m, m.Load(p), k - 1)
    else None
  }

  /** Chasing from cell i of a ring goes round and round. */
  lemma {:induction false} FollowRing(m: Memory, ring: seq<nat>, i: nat, k: nat)
    requires IsRing(m, ring) && i < |ring|
    ensures Follow(m, ring[i], k) == Some(ring[(i + k) % |ring|])
    decreases k
  {
    if k == 0 {
      SmallModulo(i, |ring|);
    } else {
      var n := |ring|;
      FollowRing(m, ring, Next(i, n), k - 1);
      if i + 1 == n {
        AddModulo(k - 1, n);
      }
    }
  }

  lemma FollowFromHead(m: Memory, ring: seq<nat>, k: nat)
    requires IsRing(m, ring)
    ensures 0 <= k % |ring| < |ring| && Follow(m, ring[0], k) == Some(ring[k % |ring|])
  {
    FollowRing(m, ring, 0, k);
  }

  /** A ring is a single cycle: from the head, all cells are visited once, in ring order,
      and the chase is back at the head exactly after every |ring| loads. */
  lemma RingIsOneCycle(m: Memory, ring: seq<nat>)
    requires IsRing(m, ring)
    ensures forall k | 0 <= k < |ring| :: Follow(m, ring[0], k) == Some(ring[k])
    ensures forall k: nat :: Follow(m, ring[0], k) == Some(ring[0]) <==> k % |ring| == 0
  {
    forall k | 0 <= k < |ring|
      ensures Follow(m, ring[0], k) == Some(ring[k])
    {
      FollowFromHead(m, ring, k);
      SmallModulo(k, |ring|);
    }
    forall k: nat
      ensures Follow(m, ring[0], k) == Some(ring[0]) <==> k % |ring| == 0
    {
      FollowFromHead(m, ring, k);
      var r := k % |ring|;
      assert r != 0 ==> ring[0] != ring[r];
    }
  }

  /** Address a lies in none of the objects of the given size at the cells of the ring. */
  ghost predicate OutsideObjects(ring: seq<nat>, size: nat, a: nat) {
    forall i | 0 <= i < |ring| :: a < ring[i] || ring[i] + size <= a
  }

  /** The two memories differ at most inside these objects. */
  ghost predicate OnlyObjectsChanged(m: Memory, w: Memory, ring: seq<nat>, size: nat) {
    w.base == m.base && |w.bytes| == |m.bytes|
    && forall a: nat | m.Has(a, 1) && OutsideObjects(ring, size, a) :: w.Byte(a) == m.Byte(a)
  }

  lemma ObjectStore(was: Memory, m: Memory, w: Memory, ring: seq<nat>, size: nat, i: nat, p: nat, n: nat)
    requires OnlyObjectsChanged(was, m, ring, size) && i < |ring|
    requires ring[i] <= p && p + n <= ring[i] + size && w.SameOutside(m, p, n)
    ensures OnlyObjectsChanged(was, w, ring, size)
  {
    forall a: nat | was.Has(a, 1) && OutsideObjects(ring, size, a)
      ensures w.Byte(a) == was.Byte(a)
    {
      assert w.Byte(a) == m.Byte(a);
    }
  }

  // ----- nested permutations

  /** Block b of perm permutes the size values of group outer[b]. */
  ghost predicate BlockPermuted(perm: seq<nat>, outer: seq<nat>, size: nat, b: nat)
    requires b < |outer|
  {
    0 <= b * size <= b * size + size <= |perm| && IsPermutation(perm[b * size..b * size + size], outer[b] * size)
  }

  /** All blocks are permuted: position p holds a value of group outer[p / size]. */
  ghost predicate Nested(perm: seq<nat>, outer: seq<nat>, size: nat) {
    0 < size && |perm| == |outer| * size && forall b | 0 <= b < |outer| :: BlockPermuted(perm, outer, size, b)
  }

  lemma NestedGroup(perm: seq<nat>, outer: seq<nat>, size: nat, p: nat)
    requires Nested(perm, outer, size) && p < |perm|
    ensures 0 <= p / size < |outer| && perm[p] / size == outer[p / size]
  {
    var b := p / size;
    DivBelow(p, |outer|, size);
    DivBelow(p, b, size);
    DivBelow(p, b + 1, size);
    assert (b + 1) * size == b * size + size;
    assert BlockPermuted(perm, outer, size, b);
    ValueInBlock(perm, b * size, size, outer[b] * size, p);
    DivModUnique(perm[p], size, outer[b], perm[p] - outer[b] * size);
  }

  lemma ValueInBlock(perm: seq<nat>, lo: nat, size: nat, base: nat, p: nat)
    requires lo <= p < lo + size <= |perm| && IsPermutation(perm[lo..lo + size], base)
    ensures base <= perm[p] < base + size
  {
    assert perm[lo..lo + size][p - lo] == perm[p];
  }

  /** A permutation of groups whose blocks are permuted is a permutation. */
  lemma NestedIsPermutation(perm: seq<nat>, outer: seq<nat>, size: nat)
    requires Nested(perm, outer, size) && IsPermutation(outer, 0)
    ensures IsPermutation(perm, 0)
  {
    forall p | 0 <= p < |perm|
      ensures perm[p] < |perm|
    {
      NestedGroup(perm, outer, size, p);
      DivBelow(perm[p], |outer|, size);
    }
    forall p, q | 0 <= p < q < |perm|
      ensures perm[p] != perm[q]
    {
      NestedDistinct(perm, outer, size, p, q);
    }
  }

  lemma NestedDistinct(perm: seq<nat>, outer: seq<nat>, size: nat, p: nat, q: nat)
    requires Nested(perm, outer, size) && IsPermutation(outer, 0) && p < q < |perm|
    ensures perm[p] != perm[q]
  {
    NestedGroup(perm, outer, size, p);
    NestedGroup(perm, outer, size, q);
    var b, c := p / size, q / size;
    if b == c {
      DivBelow(p, 0, size);
      DivBelow(q, 0, size);
      assert BlockPermuted(perm, outer, size, b);
      DistinctInBlock(perm, b * size, b * size + size, outer[b] * size, p, q);
    } else {
      assert outer[b] != outer[c] by { assert b < c || c < b; }
    }
  }

  lemma DistinctInBlock(perm: seq<nat>, lo: nat, hi: nat, base: nat, p: nat, q: nat)
    requires lo <= p < q < hi <= |perm| && IsPermutation(perm[lo..hi], base)
    ensures perm[p] != perm[q]
  {
    assert perm[lo..hi][p - lo] == perm[p] && perm[lo..hi][q - lo] == perm[q];
  }

  /** inverse undoes perm, on both sides. */
  ghost predicate Inverse(perm: seq<nat>, inverse: seq<nat>) {
    |inverse| == |perm|
    && (forall p | 0 <= p < |perm| :: perm[p] < |perm| && inverse[perm[p]] == p)
    && (forall v | 0 <= v < |perm| :: inverse[v] < |perm| && perm[inverse[v]] == v)
  }

  lemma InverseOf(perm: seq<nat>, inverse: seq<nat>)
    requires IsPermutation(perm, 0) && |inverse| == |perm|
    requires forall p | 0 <= p < |perm| :: inverse[perm[p]] == p
    ensures Inverse(perm, inverse)
  {
    forall v | 0 <= v < |perm|
      ensures inverse[v] < |perm| && perm[inverse[v]] == v
    {
      var p := PermutationCovers(perm, 0, v);
    }
  }

  // ----- the order in which the chase visits the elements

  /** perm read cyclically from position s on. */
  function Rotated(perm: seq<nat>, s: nat): (order: seq<nat>)
    requires s < |perm|
    ensures |order| == |perm|
    ensures forall k | 0 <= k < |perm| :: order[k] == perm[Turn(s, k, |perm|)]
  {
    seq(|perm|, (k: nat) requires k < |perm| => perm[Turn(s, k, |perm|)])
  }

  lemma RotatedIsPermutation(perm: seq<nat>, s: nat)
    requires IsPermutation(perm, 0) && s < |perm|
    ensures IsPermutation(Rotated(perm, s), 0)
  {
    var order := Rotated(perm, s);
    forall i, j | 0 <= i < j < |order|
      ensures order[i] != order[j]
    {
      var p, q := Turn(s, i, |perm|), Turn(s, j, |perm|);
      assert p < q || q < p;
    }
  }

  /** In the rotated order, the successor of an element is found through the inverse. */
  lemma RotatedSuccessor(perm: seq<nat>, inverse: seq<nat>, s: nat, k: nat)
    requires Inverse(perm, inverse) && s < |perm| && k < |perm|
    ensures var order := Rotated(perm, s);
            order[k] < |perm| && order[Next(k, |perm|)] == perm[Next(inverse[order[k]], |perm|)]
  {}

  /** The elements of group g are exactly those at the `size` cyclic positions from s on. */
  ghost predicate Arc(order: seq<nat>, size: nat, g: nat, s: nat)
    requires 0 < size && s < |order|
  {
    forall q | 0 <= q < |order| :: order[q] / size == g <==> Ahead(s, q, |order|) < size
  }

  ghost predicate Consecutive(order: seq<nat>, size: nat, g: nat)
    requires 0 < size
  {
    exists s :: 0 <= s < |order| && Arc(order, size, g, s)
  }

  /** Cyclically, all elements of one group are visited consecutively. */
  ghost predicate GroupsTogether(order: seq<nat>, size: nat)
    requires 0 < size
  {
    forall g: nat | g < |order| / size :: Consecutive(order, size, g)
  }

  lemma NestedGroupsTogether(perm: seq<nat>, outer: seq<nat>, size: nat, s: nat)
    requires Nested(perm, outer, size) && IsPermutation(outer, 0) && s < |perm|
    ensures GroupsTogether(Rotated(perm, s), size)
  {
    var order, n := Rotated(perm, s), |perm|;
    assert |outer| == n / size by { DivModUnique(n, size, |outer|, 0); }
    forall g: nat | g < n / size
      ensures Consecutive(order, size, g)
    {
      var b := PermutationCovers(outer, 0, g);
      BlockIndex(b, 0, |outer|, size);
      var a := Ahead(s, b * size, n);
      forall q | 0 <= q < n
        ensures order[q] / size == g <==> Ahead(a, q, n) < size
      {
        PositionInBlock(perm, outer, size, b, Turn(s, q, n));
      }
      assert Arc(order, size, g, a);
    }
  }

  /** Position p holds a value of the group of block b when p is less than one block after its start. */
  lemma PositionInBlock(perm: seq<nat>, outer: seq<nat>, size: nat, b: nat, p: nat)
    requires Nested(perm, outer, size) && IsPermutation(outer, 0) && b < |outer| && p < |perm|
    ensures 0 <= b * size < |perm|
    ensures perm[p] / size == outer[b] <==> Ahead(b * size, p, |perm|) < size
  {
    BlockIndex(b, 0, |outer|, size);
    NestedGroup(perm, outer, size, p);
    DivBelow(p, b, size);
    DivBelow(p, b + 1, size);
    assert (b + 1) * size == b * size + size;
    var c := p / size;
    assert c != b ==> outer[c] != outer[b] by { assert c < b || b < c || b == c; }
  }

  // ----- the cells of a chase

  /** The cells of the elements in visiting order, for one row of the mixer table. */
  ghost function Cells(l: ArenaLayout, row: nat, order: seq<nat>): (ring: seq<nat>)
    requires 0 < l.nrMixerIndices && 0 < l.nrMixers
    ensures |ring| == |order|
    ensures forall k | 0 <= k < |order| :: ring[k] == l.Cell(row, order[k])
  {
    seq(|order|, k requires 0 <= k < |order| => l.Cell(row, order[k]))
  }

  /** Address a belongs to no pointer cell of this row. */
  ghost predicate OutsideRow(l: ArenaLayout, row: nat, a: nat)
    requires 0 < l.stride && 0 < l.nrMixerIndices && 0 < l.nrMixers
  {
    forall x | 0 <= x < l.NrElts() :: a < l.Cell(row, x) || l.Cell(row, x) + PTR_SIZE <= a
  }

  /** The two memories differ at most in the pointer cells of this row. */
  ghost predicate OnlyRowChanged(l: ArenaLayout, row: nat, m: Memory, w: Memory)
    requires 0 < l.stride && 0 < l.nrMixerIndices && 0 < l.nrMixers
  {
    w.base == m.base && |w.bytes| == |m.bytes|
    && forall a: nat | m.Has(a, 1) && OutsideRow(l, row, a) :: w.Byte(a) == m.Byte(a)
  }

  /** The arguments are complete and the arena is large enough; slots hold a pointer. */
  ghost predicate Ready(args: ChaseArgs)
    reads args, args.arena
  {
    args.View().Valid() && PTR_SIZE <= args.View().MixerScale() && 0 < args.nrMixers
    && args.arena.Valid() && args.totalMemory <= args.arena.bytes.Length
  }

  /** A cell of element x: inside the arena, and below the address limit. */
  lemma CellInArena(args: ChaseArgs, row: nat, x: nat)
    requires Ready(args) && row < args.nrMixerIndices && x < args.View().NrElts()
    ensures args.arena.View().Has(args.View().Cell(row, x), args.View().MixerScale())
    ensures args.View().Cell(row, x) < ADDRESS_LIMIT
  {
    CellInElement(args.View(), row, x);
  }

  /** The pointer cell of x in this row holds the address of the cell of y in row'. */
  ghost predicate Linked(l: ArenaLayout, m: Memory, row: nat, x: nat, row': nat, y: nat)
    requires 0 < l.nrMixerIndices && 0 < l.nrMixers
  {
    m.Has(l.Cell(row, x), PTR_SIZE) && m.Load(l.Cell(row, x)) == l.Cell(row', y)
  }

  /** A store to the cell of x does not disturb the cell of z. */
  lemma LinkKept(l: ArenaLayout, m: Memory, w: Memory, row: nat, x: nat, row1: nat, z: nat, row2: nat, y: nat)
    requires l.Valid() && PTR_SIZE <= l.MixerScale() && 0 < l.nrMixers
    requires row < l.nrMixerIndices && row1 < l.nrMixerIndices && x < l.NrElts() && z < l.NrElts()
    requires row != row1 || x != z
    requires w.SameOutside(m, l.Cell(row, x), PTR_SIZE) && Linked(l, m, row1, z, row2, y)
    ensures Linked(l, w, row1, z, row2, y)
  {
    CellsApart(l, row, x, row1, z);
    LoadFrame(m, w, l.Cell(row1, z));
  }

  /** Cells threaded in the given order form a ring with slot-sized gaps. */
  lemma ThreadedRing(args: ChaseArgs, m: Memory, row: nat, order: seq<nat>)
    requires Ready(args) && row < args.nrMixerIndices
    requires m.base == args.arena.base && |m.bytes| == args.arena.bytes.Length
    requires 0 < |order| == args.View().NrElts() && IsPermutation(order, 0)
    requires forall k | 0 <= k < |order| :: Linked(args.View(), m, row, order[k], row, order[Next(k, |order|)])
    ensures IsRing(m, Cells(args.View(), row, order))
    ensures Spaced(Cells(args.View(), row, order), args.View().MixerScale())
  {
    var l := args.View();
    var ring := Cells(l, row, order);
    forall i, j | 0 <= i < j < |ring|
      ensures ring[i] != ring[j]
      ensures ring[i] + l.MixerScale() <= ring[j] || ring[j] + l.MixerScale() <= ring[i]
    {
      CellsApart(l, row, order[i], row, order[j]);
    }
    forall i | 0 <= i < |ring|
      ensures m.Has(ring[i], PTR_SIZE) && m.Load(ring[i]) == ring[Next(i, |ring|)]
    {
      assert Linked(l, m, row, order[i], row, order[Next(i, |order|)]);
    }
  }

  /** Thread a chase for the given row of the mixer table and return its first cell.
      `order` names the elements in the order in which the chase visits them. */
  method GenerateChase(args: ChaseArgs, mixerIdx: nat, rng: Rng, ghost own: set<nat>, ghost rewrite: Rewrite)
    returns (head: nat, ghost order: seq<nat>, ghost task: Task)
    requires Ready(args) && mixerIdx < args.nrMixerIndices && OwnsRow(own, args.View(), mixerIdx)
    modifies args.arena.bytes, rng
    ensures 0 < |order| == args.View().NrElts() && IsPermutation(order, 0) && order[0] == 0
    ensures GroupsTogether(order, args.View().NrEltsPerTlb())
    ensures args.generator.Ordered? ==> forall k | 0 <= k < |order| :: order[k] == k
    ensures DrawnOrder(order, Source(args.generator, rng.draws), old(rng.used), args.View().NrTlbGroups(),
                       args.View().NrEltsPerTlb(), 1)
    ensures rng.used == old(rng.used) + Source(args.generator, rng.draws).Used(args.View().NrTlbGroups() + |order|)
    ensures IsRing(args.arena.View(), Cells(args.View(), mixerIdx, order))
    ensures Spaced(Cells(args.View(), mixerIdx, order), args.View().MixerScale())
    ensures head == Cells(args.View(), mixerIdx, order)[0]
    ensures OnlyRowChanged(args.View(), mixerIdx, old(args.arena.View()), args.arena.View())
    ensures task.head == head && task.rewrite == rewrite
    ensures Builds(own, task, Threading(0), old(args.arena.View()), Rewriting(task), args.arena.View())
  {
    ghost var tlbPerm;
    var perm;
    perm, tlbPerm := GeneratePermutation(args, rng);
    var permInverse := Invert(perm);
    task := PlainTask(args.View(), mixerIdx, perm[..], permInverse[..], rewrite);
    Thread(args, mixerIdx, perm, permInverse, own, task);
    order := Rotated(perm[..], permInverse[0]);
    RotatedIsDrawn(perm[..], permInverse[0], Source(args.generator, rng.draws), old(rng.used),
                   args.View().NrTlbGroups(), args.View().NrEltsPerTlb());
    NestedGroupsTogether(perm[..], tlbPerm, args.View().NrEltsPerTlb(), permInverse[0]);
    RotatedRing(args, args.arena.View(), mixerIdx, perm[..], permInverse[..]);
    head := args.View().Cell(mixerIdx, 0);
  }

  /** The permutation of all elements: groups permuted, and elements permuted within their group. */
  method GeneratePermutation(args: ChaseArgs, rng: Rng) returns (perm: array<nat>, ghost tlbPerm: seq<nat>)
    requires args.View().Valid()
    modifies rng
    ensures fresh(perm) && 0 < perm.Length == args.View().NrElts() && IsPermutation(perm[..], 0)
    ensures 0 < args.View().NrEltsPerTlb() && IsPermutation(tlbPerm, 0)
    ensures Nested(perm[..], tlbPerm, args.View().NrEltsPerTlb())
    ensures args.generator.Ordered? ==> forall k | 0 <= k < perm.Length :: perm[k] == k
    ensures perm.Length == args.View().NrTlbGroups() * args.View().NrEltsPerTlb()
    ensures var g := Source(args.generator, rng.draws);
            DrawnBlock(perm[..], 0, g, old(rng.used), args.View().NrTlbGroups(), args.View().NrEltsPerTlb(), 0)
            && rng.used == old(rng.used) + g.Used(args.View().NrTlbGroups() + perm.Length)
  {
    RoundedCounts(args.View());
    var nrTlbGroups := args.totalMemory / args.tlbLocality;
    var nrEltsPerTlb := args.tlbLocality / args.stride;
    var nrElts := args.totalMemory / args.stride;
    perm := new nat[nrElts];
    tlbPerm := FillBlock(args.generator, perm, 0, nrElts, nrTlbGroups, nrEltsPerTlb, 0, rng);
    assert Lowered(perm[..][0..nrElts], 0) == perm[..];
    NestedIsPermutation(perm[..], tlbPerm, nrEltsPerTlb);
  }

  /** Linking every element to its successor in perm makes the ring of perm, read from element 0. */
  lemma RotatedRing(args: ChaseArgs, m: Memory, row: nat, perm: seq<nat>, inverse: seq<nat>)
    requires Ready(args) && row < args.nrMixerIndices
    requires m.base == args.arena.base && |m.bytes| == args.arena.bytes.Length
    requires 0 < |perm| == args.View().NrElts() && IsPermutation(perm, 0) && Inverse(perm, inverse)
    requires forall x | 0 <= x < |perm| :: Linked(args.View(), m, row, x, row, perm[Next(inverse[x], |perm|)])
    ensures var order := Rotated(perm, inverse[0]);
            IsPermutation(order, 0) && order[0] == 0
            && IsRing(m, Cells(args.View(), row, order))
            && Spaced(Cells(args.View(), row, order), args.View().MixerScale())
  {
    var order := Rotated(perm, inverse[0]);
    RotatedIsPermutation(perm, inverse[0]);
    forall k | 0 <= k < |order|
      ensures Linked(args.View(), m, row, order[k], row, order[Next(k, |order|)])
    {
      RotatedSuccessor(perm, inverse, inverse[0], k);
    }
    ThreadedRing(args, m, row, order);
  }

  /** Fill perm[at..at+n] with a permutation of base, ..., base+n-1: permute the groups, and
      within each group its elements. */
  method FillBlock(generator: Generator, perm: array<nat>, at: nat, n: nat,
                   nrGroups: nat, groupSize: nat, base: nat, rng: Rng)
    returns (ghost groups: seq<nat>)
    requires 0 < groupSize && n == nrGroups * groupSize && at + n <= perm.Length
    modifies perm, rng
    ensures |groups| == nrGroups && IsPermutation(groups, 0)
    ensures DrawnBlock(perm[..], at, Source(generator, rng.draws), old(rng.used), nrGroups, groupSize, base)
    ensures rng.used == old(rng.used) + Source(generator, rng.draws).Used(nrGroups + n)
    ensures forall k | at <= k < at + n :: base <= perm[k]
    ensures Nested(Lowered(perm[..][at..at + n], base), groups, groupSize)
    ensures generator.Ordered? ==> Counting(perm[..], at, base, n)
    ensures forall k | 0 <= k < perm.Length && !(at <= k < at + n) :: perm[k] == old(perm[k])
  {
    var tlbPerm := new nat[nrGroups];
    GenPermutation(generator, tlbPerm, 0, nrGroups, 0, rng);
    assert tlbPerm[..][0..nrGroups] == tlbPerm[..];
    groups := tlbPerm[..];
    ghost var g, from := Source(generator, rng.draws), old(rng.used);
    assert groups == g.Made(from, nrGroups, 0);
    FillGroups(generator, perm, at, n, tlbPerm, groups, groupSize, base, rng);
    AllGroupsFilled(perm[..], at, base, groups, groupSize, n);
  }

  /** Fill the block group by group, in the order given by tlbPerm. */
  method FillGroups(generator: Generator, perm: array<nat>, at: nat, n: nat, tlbPerm: array<nat>,
                    ghost groups: seq<nat>, groupSize: nat, base: nat, rng: Rng)
    requires 0 < groupSize && n == |groups| * groupSize && at + n <= perm.Length
    requires tlbPerm != perm && tlbPerm[..] == groups
    requires generator.Ordered? ==> forall k | 0 <= k < |groups| :: groups[k] == k
    modifies perm, rng
    ensures GroupsFilled(perm[..], at, base, groups, groupSize, |groups|)
    ensures generator.Ordered? ==> Counting(perm[..], at, base, n)
    ensures var g := Source(generator, rng.draws);
            GroupsDrawn(perm[..], at, g, old(rng.used), groups, groupSize, base, |groups|)
            && rng.used == old(rng.used) + g.Used(n)
    ensures forall k | 0 <= k < perm.Length && !(at <= k < at + n) :: perm[k] == old(perm[k])
  {
    ghost var from := rng.used;
    var i := 0;
    while i < tlbPerm.Length
      invariant 0 <= i <= |groups| && tlbPerm[..] == groups
      invariant FilledUpTo(generator, perm[..], at, base, groups, groupSize, i)
      invariant DrawnUpTo(Source(generator, rng.draws), perm[..], at, base, groups, groupSize, i, from, rng.used)
      invariant forall k | 0 <= k < perm.Length && !(at <= k < at + n) :: perm[k] == old(perm[k])
    {
      FillGroup(generator, perm, at, n, groups, i, tlbPerm[i], groupSize, base, rng, from);
      i := i + 1;
    }
  }

  /** The first i groups of the block are filled. */
  ghost predicate FilledUpTo(generator: Generator, p: seq<nat>, at: nat, base: nat, groups: seq<nat>, size: nat, i: nat)
    requires i <= |groups|
  {
    0 <= i * size && GroupsFilled(p, at, base, groups, size, i)
    && (generator.Ordered? ==> Counting(p, at, base, i * size))
  }

  /** They are made of the words from `from` on, one for each element so far. */
  ghost predicate DrawnUpTo(g: Source, p: seq<nat>, at: nat, base: nat, groups: seq<nat>, size: nat, i: nat,
                            from: nat, used: nat)
    requires i <= |groups|
  {
    0 <= i * size && GroupsDrawn(p, at, g, from, groups, size, base, i) && used == from + g.Used(i * size)
  }

  /** Permute the elements of group tlbPerm[i] into the i-th part of the block. */
  method FillGroup(generator: Generator, perm: array<nat>, at: nat, n: nat, ghost groups: seq<nat>,
                   i: nat, group: nat, groupSize: nat, base: nat, rng: Rng, ghost from: nat)
    requires 0 < groupSize && n == |groups| * groupSize && at + n <= perm.Length
    requires i < |groups| && group == groups[i]
    requires FilledUpTo(generator, perm[..], at, base, groups, groupSize, i)
    requires generator.Ordered? ==> group == i
    requires DrawnUpTo(Source(generator, rng.draws), perm[..], at, base, groups, groupSize, i, from, rng.used)
    modifies perm, rng
    ensures FilledUpTo(generator, perm[..], at, base, groups, groupSize, i + 1)
    ensures DrawnUpTo(Source(generator, rng.draws), perm[..], at, base, groups, groupSize, i + 1, from, rng.used)
    ensures forall k | 0 <= k < perm.Length && !(at <= k < at + n) :: perm[k] == old(perm[k])
  {
    BlockIndex(i, 0, |groups|, groupSize);
    MulMono(0, group, groupSize);
    var lo, low := at + i * groupSize, group * groupSize;
    ghost var g, used, was := Source(generator, rng.draws), rng.used, perm[..];
    GenPermutation(generator, perm, lo, groupSize, base + low, rng);
    PartAdded(generator, was, perm[..], at, base, groups, groupSize, i, lo, low);
    DrawnOneMore(was, perm[..], at, g, from, groups, groupSize, base, i, lo - at, low, used);
  }

  /** p counts up from base at position `at`. */
  ghost predicate Counting(p: seq<nat>, at: nat, base: nat, n: nat) {
    at + n <= |p| && forall k | at <= k < at + n :: p[k] == base + (k - at)
  }

  /** s with base taken off every value. */
  function Lowered(s: seq<nat>, base: nat): (r: seq<nat>)
    requires forall k | 0 <= k < |s| :: base <= s[k]
    ensures |r| == |s| && forall k | 0 <= k < |s| :: r[k] == s[k] - base
  {
    seq(|s|, k requires 0 <= k < |s| => s[k] - base)
  }

  /** Group number b of the block at `at` is filled. */
  ghost predicate GroupFilled(p: seq<nat>, at: nat, base: nat, outer: seq<nat>, size: nat, b: nat)
    requires b < |outer|
  {
    0 <= b * size && at + b * size + size <= |p| && 0 <= outer[b] * size
    && IsPermutation(p[at + b * size..at + b * size + size], base + outer[b] * size)
  }

  lemma FilledGroup(p: seq<nat>, at: nat, base: nat, outer: seq<nat>, size: nat, b: nat, lo: nat, low: nat)
    requires b < |outer| && low == outer[b] * size && lo == at + b * size && 0 <= b * size && lo + size <= |p|
    requires IsPermutation(p[lo..lo + size], base + low)
    ensures GroupFilled(p, at, base, outer, size, b)
  {}

  // ----- which words make the permutation

  /** Part b of the block is made of the words that follow those of the parts before it. */
  ghost predicate GroupDrawn(p: seq<nat>, at: nat, g: Source, from: nat, groups: seq<nat>, size: nat, base: nat, b: nat)
    requires b < |groups|
  {
    PartAt(p, at, g, from, size, base, b * size, groups[b] * size)
  }

  /** The part `off` elements into the block is made of the words that far behind `from`, and permutes
      the elements from base + low on. */
  ghost predicate PartAt(p: seq<nat>, at: nat, g: Source, from: nat, size: nat, base: nat, off: int, low: int) {
    0 <= off && 0 <= low && PartDrawn(p, at + off, g, from + g.Used(off), size, base + low)
  }

  /** The part at `lo` is the permutation made of the words from `from` on. */
  ghost predicate PartDrawn(p: seq<nat>, lo: nat, g: Source, from: nat, size: nat, base: nat) {
    lo + size <= |p| && p[lo..lo + size] == g.Made(from, size, base)
  }

  ghost predicate GroupsDrawn(p: seq<nat>, at: nat, g: Source, from: nat, groups: seq<nat>, size: nat, base: nat,
                              i: nat)
    requires i <= |groups|
  {
    forall b | 0 <= b < i :: GroupDrawn(p, at, g, from, groups, size, base, b)
  }

  /** The block at `at` is made of the words from `from` on: first the order of the groups, then the
      elements of each group in this order. */
  ghost predicate DrawnBlock(p: seq<nat>, at: nat, g: Source, from: nat, nrGroups: nat, size: nat, base: nat) {
    var groups := g.Made(from, nrGroups, 0);
    GroupsDrawn(p, at, g, from + g.Used(nrGroups), groups, size, base, nrGroups)
  }

  /** For random permutations, in terms of the words: the groups are shuffled by the first nrGroups of
      them, and the elements of part b by the next `size` words in turn. */
  lemma RandomBlock(p: seq<nat>, at: nat, draws: nat -> nat, from: nat, nrGroups: nat, size: nat, base: nat, b: nat)
    requires DrawnBlock(p, at, Source(Random, draws), from, nrGroups, size, base) && b < nrGroups
    ensures var groups := Shuffled(Choices(draws, from, nrGroups), 0);
            var off, low := b * size, groups[b] * size;
            0 <= off && 0 <= low && at + off + size <= |p|
            && p[at + off..at + off + size] == Shuffled(Choices(draws, from + nrGroups + off, size), base + low)
  {
    var g := Source(Random, draws);
    var groups := g.Made(from, nrGroups, 0);
    var off, low := b * size, groups[b] * size;
    assert GroupDrawn(p, at, g, from + g.Used(nrGroups), groups, size, base, b);
    assert PartAt(p, at, g, from + g.Used(nrGroups), size, base, off, low);
  }

  /** The part of p at `off`, made of elements from `low` on. */
  ghost predicate IsPart(p: seq<nat>, off: int, size: nat, low: int, part: seq<nat>) {
    0 <= low && 0 <= off && off + size <= |p| && part == p[off..off + size] && IsPermutation(part, low)
  }

  /** Word t, counted from the first element of the first part. */
  ghost function PartWord(p: seq<nat>, outer: seq<nat>, size: nat, t: nat): nat {
    if Nested(p, outer, size) && t < |p| then
      NestedGroup(p, outer, size, t);
      var b := t / size;
      var part := PartOf(p, outer, size, b);
      ChoicesFor(part, outer[b] * size)[t % size]
    else 0
  }

  ghost function PartOf(p: seq<nat>, outer: seq<nat>, size: nat, b: nat): (part: seq<nat>)
    requires Nested(p, outer, size) && b < |outer|
    ensures |part| == size && IsPart(p, b * size, size, outer[b] * size, part)
  {
    assert BlockPermuted(p, outer, size, b);
    MulMono(0, outer[b], size);
    p[b * size..b * size + size]
  }

  lemma PartWordAt(p: seq<nat>, outer: seq<nat>, size: nat, b: nat, off: nat, low: nat, part: seq<nat>, k: nat)
    requires Nested(p, outer, size) && b < |outer| && k < size && off == b * size && low == outer[b] * size
    requires part == PartOf(p, outer, size, b)
    ensures IsPart(p, off, size, low, part) && |part| == size
    ensures PartWord(p, outer, size, off + k) == ChoicesFor(part, low)[k]
  {
    BlockIndex(b, k, |outer|, size);
  }

  /** The words of a nested permutation: those of the groups, and then those of the parts. */
  ghost function BlockWord(p: seq<nat>, outer: seq<nat>, size: nat, i: nat): nat {
    if i < |outer| then (if IsPermutation(outer, 0) then ChoicesFor(outer, 0)[i] else 0)
    else PartWord(p, outer, size, i - |outer|)
  }

  /** Every permutation of the groups with every permutation inside each of them comes from some words. */
  lemma EveryBlockIsDrawn(p: seq<nat>, outer: seq<nat>, size: nat) returns (draws: nat -> nat)
    requires Nested(p, outer, size) && IsPermutation(outer, 0)
    ensures DrawnBlock(p, 0, Source(Random, draws), 0, |outer|, size, 0)
  {
    draws := (i: nat) => BlockWord(p, outer, size, i);
    PermutationDrawn(draws, 0, outer, 0);
    forall b | 0 <= b < |outer|
      ensures GroupDrawn(p, 0, Source(Random, draws), |outer|, outer, size, 0, b)
    {
      MulMono(0, b, size);
      MulMono(0, outer[b], size);
      PartFromWords(p, outer, size, draws, b, b * size, outer[b] * size);
    }
  }

  lemma PartFromWords(p: seq<nat>, outer: seq<nat>, size: nat, draws: nat -> nat, b: nat, off: nat, low: nat)
    requires Nested(p, outer, size) && b < |outer| && off == b * size && low == outer[b] * size
    requires forall t: nat :: draws(|outer| + t) == PartWord(p, outer, size, t)
    ensures PartAt(p, 0, Source(Random, draws), |outer|, size, 0, off, low)
  {
    var part, from := PartOf(p, outer, size, b), |outer| + off;
    WordsOfPart(p, outer, size, draws, b, off, low, part, from);
    PartMade(p, off, size, low, part, draws, |outer|, from);
  }

  lemma WordsOfPart(p: seq<nat>, outer: seq<nat>, size: nat, draws: nat -> nat, b: nat, off: nat, low: nat,
                    part: seq<nat>, from: nat)
    requires Nested(p, outer, size) && b < |outer| && off == b * size && low == outer[b] * size
    requires part == PartOf(p, outer, size, b) && from == |outer| + off
    requires forall t: nat :: draws(|outer| + t) == PartWord(p, outer, size, t)
    ensures IsPart(p, off, size, low, part) && |part| == size
    ensures forall k | 0 <= k < size :: draws(from + k) == ChoicesFor(part, low)[k]
  {
    forall k | 0 <= k < size
      ensures draws(from + k) == ChoicesFor(part, low)[k]
    {
      PartWordAt(p, outer, size, b, off, low, part, k);
      assert draws(|outer| + (off + k)) == PartWord(p, outer, size, off + k);
    }
  }

  lemma PartMade(p: seq<nat>, off: nat, size: nat, low: nat, part: seq<nat>, draws: nat -> nat, n: nat, from: nat)
    requires IsPart(p, off, size, low, part) && |part| == size && from == n + off
    requires forall k | 0 <= k < size :: draws(from + k) == ChoicesFor(part, low)[k]
    ensures PartAt(p, 0, Source(Random, draws), n, size, 0, off, low)
  {
    PermutationDrawn(draws, from, part, low);
  }

  /** So every order that keeps the groups together in this way, read from any element on, is the order
      of some random chase. */
  lemma EveryOrderIsDrawn(p: seq<nat>, outer: seq<nat>, size: nat, s: nat) returns (draws: nat -> nat)
    requires Nested(p, outer, size) && IsPermutation(outer, 0) && s < |p|
    ensures DrawnOrder(Rotated(p, s), Source(Random, draws), 0, |outer|, size, 1)
  {
    draws := EveryBlockIsDrawn(p, outer, size);
    RotatedIsDrawn(p, s, Source(Random, draws), 0, |outer|, size);
  }

  lemma DrawnGroupAdded(p: seq<nat>, q: seq<nat>, at: nat, g: Source, from: nat, groups: seq<nat>, size: nat, base: nat,
                        i: nat, lo: nat)
    requires 0 < size && i < |groups| && |p| == |q| && lo == at + i * size
    requires GroupsDrawn(p, at, g, from, groups, size, base, i) && GroupDrawn(q, at, g, from, groups, size, base, i)
    requires forall k | 0 <= k < lo && k < |p| :: q[k] == p[k]
    ensures GroupsDrawn(q, at, g, from, groups, size, base, i + 1)
  {
    forall b | 0 <= b < i
      ensures GroupDrawn(q, at, g, from, groups, size, base, b)
    {
      assert GroupDrawn(p, at, g, from, groups, size, base, b);
      MultiplesApart(b, i, size);
      PartKept(p, q, at, g, from, size, base, b * size, groups[b] * size, lo);
    }
  }

  lemma PartKept(p: seq<nat>, q: seq<nat>, at: nat, g: Source, from: nat, size: nat, base: nat, off: int, low: int,
                 lo: nat)
    requires PartAt(p, at, g, from, size, base, off, low) && |p| == |q| && at + off + size <= lo
    requires forall k | 0 <= k < lo && k < |p| :: q[k] == p[k]
    ensures PartAt(q, at, g, from, size, base, off, low)
  {
    assert q[at + off..at + off + size] == p[at + off..at + off + size];
  }

  /** One part more, as drawn. */
  lemma DrawnOneMore(p: seq<nat>, q: seq<nat>, at: nat, g: Source, from: nat, groups: seq<nat>, size: nat, base: nat,
                     i: nat, off: nat, low: nat, used: nat)
    requires 0 < size && i < |groups| && |p| == |q| && off == i * size && low == groups[i] * size
    requires DrawnUpTo(g, p, at, base, groups, size, i, from, used)
    requires PartDrawn(q, at + off, g, used, size, base + low)
    requires forall k | 0 <= k < at + off && k < |p| :: q[k] == p[k]
    ensures DrawnUpTo(g, q, at, base, groups, size, i + 1, from, used + g.Used(size))
  {
    MulSucc(i, size);
    assert PartAt(q, at, g, from, size, base, off, low);
    DrawnGroupAdded(p, q, at, g, from, groups, size, base, i, at + off);
  }

  /** What a new part does to the block. */
  lemma PartAdded(generator: Generator, p: seq<nat>, q: seq<nat>, at: nat, base: nat, groups: seq<nat>, size: nat,
                  i: nat, lo: nat, low: nat)
    requires 0 < size && i < |groups| && |p| == |q| && lo == at + i * size && low == groups[i] * size
    requires FilledUpTo(generator, p, at, base, groups, size, i) && (generator.Ordered? ==> groups[i] == i)
    requires lo + size <= |q| && IsPermutation(q[lo..lo + size], base + low)
    requires generator.Ordered? ==> forall k | lo <= k < lo + size :: q[k] == base + low + (k - lo)
    requires forall k | 0 <= k < |p| && !(lo <= k < lo + size) :: q[k] == p[k]
    ensures FilledUpTo(generator, q, at, base, groups, size, i + 1)
  {
    MulSucc(i, size);
    FilledGroup(q, at, base, groups, size, i, lo, low);
    GroupAdded(p, q, at, base, groups, size, i);
  }

  /** order is perm read cyclically from position s on, in the block of n at position `at`. */
  ghost predicate ReadFrom(order: seq<nat>, perm: seq<nat>, at: nat, n: nat, s: nat)
    requires s < n && at + n <= |order| == |perm|
  {
    forall k | 0 <= k < n :: order[at + k] == perm[at + Turn(s, k, n)]
  }

  /** Block j of the order is a drawn permutation of the groups and of the elements of each group,
      read from some position on. */
  ghost predicate BlockFromWords(order: seq<nat>, perm: seq<nat>, g: Source, from: nat, nrGroups: nat, size: nat,
                                 j: nat)
    requires |order| == |perm|
  {
    var n := nrGroups * size;
    0 <= j * n && j * n + n <= |order| && 0 <= j * (nrGroups + n)
    && DrawnBlock(perm, j * n, g, from + g.Used(j * (nrGroups + n)), nrGroups, size, j * n)
    && exists s :: 0 <= s < n && ReadFrom(order, perm, j * n, n, s)
  }

  /** The order of a chase of several blocks is made of the words from `from` on, block after block. */
  ghost predicate DrawnOrder(order: seq<nat>, g: Source, from: nat, nrGroups: nat, size: nat, blocks: nat) {
    exists perm: seq<nat> ::
      |perm| == |order| && forall j | 0 <= j < blocks :: BlockFromWords(order, perm, g, from, nrGroups, size, j)
  }

  lemma RotatedIsDrawn(perm: seq<nat>, s: nat, g: Source, from: nat, nrGroups: nat, size: nat)
    requires s < |perm| == nrGroups * size && DrawnBlock(perm, 0, g, from, nrGroups, size, 0)
    ensures DrawnOrder(Rotated(perm, s), g, from, nrGroups, size, 1)
  {
    var order, n := Rotated(perm, s), nrGroups * size;
    assert 0 * n == 0 && 0 * (nrGroups + n) == 0;
    assert ReadFrom(order, perm, 0, n, s);
    assert BlockFromWords(order, perm, g, from, nrGroups, size, 0);
  }

  ghost predicate GroupsFilled(p: seq<nat>, at: nat, base: nat, outer: seq<nat>, size: nat, i: nat)
    requires i <= |outer|
  {
    forall b | 0 <= b < i :: GroupFilled(p, at, base, outer, size, b)
  }

  /** Generating group i keeps the groups before it. */
  lemma GroupAdded(p: seq<nat>, q: seq<nat>, at: nat, base: nat, outer: seq<nat>, size: nat, i: nat)
    requires 0 < size && i < |outer| && |p| == |q|
    requires GroupsFilled(p, at, base, outer, size, i)
    requires GroupFilled(q, at, base, outer, size, i)
    requires forall k | 0 <= k < |p| && !(at + i * size <= k < at + i * size + size) :: q[k] == p[k]
    ensures GroupsFilled(q, at, base, outer, size, i + 1)
  {
    forall b | 0 <= b < i
      ensures GroupFilled(q, at, base, outer, size, b)
    {
      assert GroupFilled(p, at, base, outer, size, b);
      MultiplesApart(b, i, size);
      assert q[at + b * size..at + b * size + size] == p[at + b * size..at + b * size + size];
    }
  }

  lemma AllGroupsFilled(p: seq<nat>, at: nat, base: nat, outer: seq<nat>, size: nat, n: nat)
    requires 0 < size && n == |outer| * size && at + n <= |p|
    requires GroupsFilled(p, at, base, outer, size, |outer|)
    ensures forall k | at <= k < at + n :: base <= p[k]
    ensures Nested(Lowered(p[at..at + n], base), outer, size)
  {
    forall k | at <= k < at + n
      ensures base <= p[k]
    {
      AboveBase(p, at, base, outer, size, n, k);
    }
    var s := Lowered(p[at..at + n], base);
    forall b | 0 <= b < |outer|
      ensures BlockPermuted(s, outer, size, b)
    {
      GroupLowered(p, at, base, outer, size, s, b);
    }
  }

  lemma AboveBase(p: seq<nat>, at: nat, base: nat, outer: seq<nat>, size: nat, n: nat, k: nat)
    requires 0 < size && n == |outer| * size && at + n <= |p| && at <= k < at + n
    requires GroupsFilled(p, at, base, outer, size, |outer|)
    ensures base <= p[k]
  {
    var b := (k - at) / size;
    DivBelow(k - at, |outer|, size);
    DivBelow(k - at, 0, size);
    assert GroupFilled(p, at, base, outer, size, b);
    ValueInBlock(p, at + b * size, size, base + outer[b] * size, k);
  }

  lemma GroupLowered(p: seq<nat>, at: nat, base: nat, outer: seq<nat>, size: nat, s: seq<nat>, b: nat)
    requires 0 < size && b < |outer| && |s| == |outer| * size && at + |s| <= |p|
    requires GroupFilled(p, at, base, outer, size, b)
    requires forall k | 0 <= k < |s| :: s[k] == p[at + k] - base
    ensures BlockPermuted(s, outer, size, b)
  {
    BlockIndex(b, 0, |outer|, size);
    SliceLowered(p, s, at, base, b * size, outer[b] * size, size);
  }

  lemma SliceLowered(p: seq<nat>, s: seq<nat>, at: nat, base: nat, lo: nat, low: nat, size: nat)
    requires at + lo + size <= |p| && lo + size <= |s| && at + |s| <= |p|
    requires IsPermutation(p[at + lo..at + lo + size], base + low)
    requires forall k | 0 <= k < |s| :: s[k] == p[at + k] - base
    ensures IsPermutation(s[lo..lo + size], low)
  {
    var t, u := p[at + lo..at + lo + size], s[lo..lo + size];
    forall k | 0 <= k < size
      ensures u[k] == t[k] - base
    {
      assert u[k] == s[lo + k] && t[k] == p[at + lo + k];
    }
    LoweredPermutation(t, u, low, base);
  }

  lemma LoweredPermutation(t: seq<nat>, s: seq<nat>, low: nat, base: nat)
    requires IsPermutation(t, base + low) && |s| == |t|
    requires forall k | 0 <= k < |t| :: s[k] == t[k] - base
    ensures IsPermutation(s, low)
  {}

  /** perm_inverse[perm[i]] = i for all i. */
  method Invert(perm: array<nat>) returns (inverse: array<nat>)
    requires IsPermutation(perm[..], 0)
    ensures fresh(inverse) && Inverse(perm[..], inverse[..])
  {
    inverse := new nat[perm.Length];
    assert forall k | 0 <= k < perm.Length :: perm[..][k] < perm.Length;
    var i := 0;
    while i < perm.Length
      invariant 0 <= i <= perm.Length
      invariant forall k | 0 <= k < i :: inverse[perm[k]] == k
    {
      assert forall k | 0 <= k < i :: perm[..][k] != perm[..][i];
      inverse[perm[i]] := i;
      i := i + 1;
    }
    InverseOf(perm[..], inverse[..]);
  }

  /** The cells of the first i elements are linked to their successors. */
  ghost predicate Threaded(l: ArenaLayout, m: Memory, row: nat, perm: seq<nat>, inverse: seq<nat>, i: nat)
    requires 0 < l.nrMixerIndices && 0 < l.nrMixers && i <= |perm| && Inverse(perm, inverse)
  {
    forall x | 0 <= x < i :: Linked(l, m, row, x, row, perm[Next(inverse[x], |perm|)])
  }

  lemma LinksKept(l: ArenaLayout, m: Memory, w: Memory, row: nat, i: nat, perm: seq<nat>, inverse: seq<nat>)
    requires l.Valid() && PTR_SIZE <= l.MixerScale() && 0 < l.nrMixers && row < l.nrMixerIndices
    requires i < |perm| == l.NrElts() && Inverse(perm, inverse)
    requires w.SameOutside(m, l.Cell(row, i), PTR_SIZE) && Threaded(l, m, row, perm, inverse, i)
    requires Linked(l, w, row, i, row, perm[Next(inverse[i], |perm|)])
    ensures Threaded(l, w, row, perm, inverse, i + 1)
  {
    forall x | 0 <= x < i
      ensures Linked(l, w, row, x, row, perm[Next(inverse[x], |perm|)])
    {
      LinkKept(l, m, w, row, i, row, x, row, perm[Next(inverse[x], |perm|)]);
    }
  }

  /** The threading of a plain chase as a list of stores. */
  ghost function PlainTask(l: ArenaLayout, row: nat, perm: seq<nat>, inverse: seq<nat>, rewrite: Rewrite): (t: Task)
    requires 0 < l.nrMixerIndices && 0 < l.nrMixers && Inverse(perm, inverse)
    ensures Plain(t, l, row, perm, inverse) && t.rewrite == rewrite && t.head == l.Cell(row, 0)
  {
    Task(seq(|perm|, (x: nat) => l.Cell(row, x)), PlainLinks(l, row, perm, inverse), false, l.Cell(row, 0), rewrite)
  }

  ghost function PlainLinks(l: ArenaLayout, row: nat, perm: seq<nat>, inverse: seq<nat>): (links: seq<nat>)
    requires 0 < l.nrMixerIndices && 0 < l.nrMixers && Inverse(perm, inverse)
    ensures |links| == |perm| && forall x | 0 <= x < |perm| :: links[x] == l.Cell(row, perm[Next(inverse[x], |perm|)])
  {
    seq(|perm|, x requires 0 <= x < |perm| => l.Cell(row, perm[Next(inverse[x], |perm|)]))
  }

  ghost predicate Plain(t: Task, l: ArenaLayout, row: nat, perm: seq<nat>, inverse: seq<nat>)
    requires 0 < l.nrMixerIndices && 0 < l.nrMixers && Inverse(perm, inverse)
  {
    |t.cells| == |t.links| == |perm| && !t.tested
    && forall x | 0 <= x < |perm| :: PlainLink(t, l, row, x, perm[Next(inverse[x], |perm|)])
  }

  ghost predicate PlainLink(t: Task, l: ArenaLayout, row: nat, x: nat, y: nat)
    requires 0 < l.nrMixerIndices && 0 < l.nrMixers && x < |t.cells| == |t.links|
  {
    t.cells[x] == l.Cell(row, x) && t.links[x] == l.Cell(row, y)
  }

  lemma OwnsPlain(own: set<nat>, t: Task, l: ArenaLayout, row: nat, perm: seq<nat>, inverse: seq<nat>)
    requires 0 < l.stride && 0 < l.nrMixerIndices && 0 < l.nrMixers && Inverse(perm, inverse)
    requires Plain(t, l, row, perm, inverse) && OwnsRow(own, l, row) && |perm| == l.NrElts()
    ensures OwnsCells(own, t.cells)
  {
    forall x | 0 <= x < |t.cells|
      ensures Covered(own, t.cells[x], PTR_SIZE)
    {
      assert PlainLink(t, l, row, x, perm[Next(inverse[x], |perm|)]);
    }
  }

  /** The pointer cells of this row are among the thread's own addresses. */
  ghost predicate OwnsRow(own: set<nat>, l: ArenaLayout, row: nat)
    requires 0 < l.stride && 0 < l.nrMixerIndices && 0 < l.nrMixers
  {
    forall x | 0 <= x < l.NrElts() :: Covered(own, l.Cell(row, x), PTR_SIZE)
  }

  /** The state of the threading loop in front of element i. */
  ghost predicate ThreadedSoFar(l: ArenaLayout, row: nat, perm: seq<nat>, inverse: seq<nat>, was: Memory, m: Memory,
                                own: set<nat>, task: Task, i: nat)
    requires 0 < l.stride && 0 < l.nrMixerIndices && 0 < l.nrMixers && i <= |perm| && Inverse(perm, inverse)
  {
    Threaded(l, m, row, perm, inverse, i) && OnlyRowChanged(l, row, was, m)
    && Builds(own, task, Threading(0), was, Threading(i), m)
  }

  /** Store into the cell of every element the address of its successor's cell. */
  method Thread(args: ChaseArgs, row: nat, perm: array<nat>, permInverse: array<nat>, ghost own: set<nat>,
                ghost task: Task)
    requires Ready(args) && row < args.nrMixerIndices
    requires perm.Length == args.View().NrElts() && Inverse(perm[..], permInverse[..])
    requires Plain(task, args.View(), row, perm[..], permInverse[..]) && OwnsRow(own, args.View(), row)
    modifies args.arena.bytes
    ensures perm[..] == old(perm[..]) && permInverse[..] == old(permInverse[..])
    ensures Threaded(args.View(), args.arena.View(), row, perm[..], permInverse[..], perm.Length)
    ensures OnlyRowChanged(args.View(), row, old(args.arena.View()), args.arena.View())
    ensures Builds(own, task, Threading(0), old(args.arena.View()), Rewriting(task), args.arena.View())
  {
    var nrElts := perm.Length;
    ghost var l, p, q, was := args.View(), perm[..], permInverse[..], args.arena.View();
    BuildsNothing(own, task, Threading(0), was);
    OwnsPlain(own, task, l, row, p, q);
    var i := 0;
    while i < nrElts
      invariant 0 <= i <= nrElts && perm[..] == p && permInverse[..] == q
      invariant ThreadedSoFar(l, row, p, q, was, args.arena.View(), own, task, i)
    {
      ThreadOne(args, row, perm, permInverse, i, was, own, task);
      i := i + 1;
    }
    DidSkip(own, task, Threading(0), was, Threading(nrElts), args.arena.View());
  }

  /** One round: the cell of element i gets the address of the cell of its successor. */
  method ThreadOne(args: ChaseArgs, row: nat, perm: array<nat>, permInverse: array<nat>, i: nat,
                   ghost was: Memory, ghost own: set<nat>, ghost task: Task)
    requires Ready(args) && row < args.nrMixerIndices && i < perm.Length == args.View().NrElts()
    requires Inverse(perm[..], permInverse[..]) && Plain(task, args.View(), row, perm[..], permInverse[..])
    requires OwnsCells(own, task.cells)
    requires ThreadedSoFar(args.View(), row, perm[..], permInverse[..], was, args.arena.View(), own, task, i)
    modifies args.arena.bytes
    ensures perm[..] == old(perm[..]) && permInverse[..] == old(permInverse[..])
    ensures ThreadedSoFar(args.View(), row, perm[..], permInverse[..], was, args.arena.View(), own, task, i + 1)
  {
    ghost var l, p, q, before := args.View(), perm[..], permInverse[..], args.arena.View();
    var next := permInverse[i] + 1;
    next := if next == perm.Length then 0 else next;
    assert next == Next(q[i], |p|) && PlainLink(task, l, row, i, p[next]);
    StoreCell(args, row, i, perm[next]);
    LinksKept(l, before, args.arena.View(), row, i, p, q);
    StoreInRow(l, row, was, before, args.arena.View(), i);
    DidLink(own, task, was, i, before, args.arena.View());
  }

  method StoreCell(args: ChaseArgs, row: nat, i: nat, next: nat)
    requires Ready(args) && row < args.nrMixerIndices && i < args.View().NrElts() && next < args.View().NrElts()
    modifies args.arena.bytes
    ensures args.arena.View().SameOutside(old(args.arena.View()), args.View().Cell(row, i), PTR_SIZE)
    ensures Linked(args.View(), args.arena.View(), row, i, row, next)
    ensures Stored(old(args.arena.View()), args.arena.View(), args.View().Cell(row, i),
                   ToBytes(args.View().Cell(row, next), PTR_SIZE))
  {
    CellInArena(args, row, i);
    CellInArena(args, row, next);
    args.arena.Store(args.View().Cell(row, i), args.View().Cell(row, next));
  }

  lemma StoreInRow(l: ArenaLayout, row: nat, was: Memory, m: Memory, w: Memory, i: nat)
    requires 0 < l.stride && 0 < l.nrMixerIndices && 0 < l.nrMixers && i < l.NrElts()
    requires OnlyRowChanged(l, row, was, m) && w.SameOutside(m, l.Cell(row, i), PTR_SIZE)
    ensures OnlyRowChanged(l, row, was, w)
  {}
}
