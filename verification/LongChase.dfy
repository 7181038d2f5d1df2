/** generate_chase_long (multichase/permutation.c): one cycle through several permutations of
    the elements, each block on its own rows of the mixer table. */
module LongChase {
  import opened Wrappers
  import opened Numbers
  import opened Memory
  import opened Permutations
  import opened Layout
  import opened Accesses
  import opened Builder
  import opened Chase

  // ----- permutations that keep every block in place

  /** perm moves values only within their block of n. */
  ghost predicate BlockPreserving(perm: seq<nat>, n: nat) {
    0 < n && forall p | 0 <= p < |perm| :: perm[p] / n == p / n
  }

  /** Block j of s, counted from zero. */
  function Segment(s: seq<nat>, j: nat, n: nat): (r: seq<nat>)
    requires 0 < n && 0 <= j * n && j * n + n <= |s|
    ensures |r| == n && forall k | 0 <= k < n :: r[k] == s[j * n + k] % n
  {
    seq(n, k requires 0 <= k < n => s[j * n + k] % n)
  }

  /** Block j has been filled with a permutation of its own values, group by group. */
  ghost predicate BlockReady(perm: seq<nat>, j: nat, n: nat, groups: seq<nat>, size: nat) {
    0 < n && 0 < size && 0 <= j * n && j * n + n <= |perm|
    && (forall k | j * n <= k < j * n + n :: j * n <= perm[k] < j * n + n)
    && IsPermutation(groups, 0) && Nested(Segment(perm, j, n), groups, size)
  }

  lemma BlockReadyFromFill(perm: seq<nat>, j: nat, n: nat, groups: seq<nat>, size: nat)
    requires 0 < n && 0 < size && 0 <= j * n && j * n + n <= |perm|
    requires forall k | j * n <= k < j * n + n :: j * n <= perm[k]
    requires IsPermutation(groups, 0) && Nested(Lowered(perm[j * n..j * n + n], j * n), groups, size)
    ensures BlockReady(perm, j, n, groups, size)
  {
    var s := Lowered(perm[j * n..j * n + n], j * n);
    NestedIsPermutation(s, groups, size);
    forall k | 0 <= k < n
      ensures s[k] == perm[j * n + k] - j * n && s[k] < n && perm[j * n + k] % n == s[k]
    {
      LoweredValue(perm[j * n + k], n, j, j * n, s[k]);
    }
    forall k | j * n <= k < j * n + n
      ensures perm[k] < j * n + n
    {
      assert s[k - j * n] < n;
    }
    assert Segment(perm, j, n) == s;
  }

  lemma LoweredValue(v: nat, n: nat, j: nat, base: nat, r: nat)
    requires 0 < n && base == j * n && r == v - base && r < n
    ensures v % n == r
  {
    DivModUnique(v, n, j, r);
  }

  lemma BlockReadyFrame(p: seq<nat>, q: seq<nat>, j: nat, n: nat, groups: seq<nat>, size: nat)
    requires BlockReady(p, j, n, groups, size) && |q| == |p|
    requires forall k | j * n <= k < j * n + n :: q[k] == p[k]
    ensures BlockReady(q, j, n, groups, size)
  {
    assert Segment(q, j, n) == Segment(p, j, n);
  }

  /** All blocks are filled; allGroups[j] is the order of the groups in block j. */
  ghost predicate BlocksReady(perm: seq<nat>, n: nat, allGroups: seq<seq<nat>>, size: nat) {
    forall j | 0 <= j < |allGroups| :: BlockReady(perm, j, n, allGroups[j], size)
  }

  lemma ReadyPosition(perm: seq<nat>, n: nat, allGroups: seq<seq<nat>>, size: nat, p: nat)
    requires 0 < n && |perm| == |allGroups| * n && BlocksReady(perm, n, allGroups, size) && p < |perm|
    ensures 0 <= p / n < |allGroups| && perm[p] / n == p / n
  {
    var j := p / n;
    DivBelow(p, |allGroups|, n);
    DivBelow(p, 0, n);
    assert BlockReady(perm, j, n, allGroups[j], size);
    DivModUnique(perm[p], n, j, perm[p] - j * n);
  }

  lemma BlocksReadyIsPermutation(perm: seq<nat>, n: nat, allGroups: seq<seq<nat>>, size: nat)
    requires 0 < n && |perm| == |allGroups| * n && BlocksReady(perm, n, allGroups, size)
    ensures IsPermutation(perm, 0) && BlockPreserving(perm, n)
  {
    forall p | 0 <= p < |perm|
      ensures perm[p] < |perm| && perm[p] / n == p / n
    {
      ReadyPosition(perm, n, allGroups, size, p);
      DivBelow(perm[p], |allGroups|, n);
    }
    forall p, q | 0 <= p < q < |perm|
      ensures perm[p] != perm[q]
    {
      ReadyPosition(perm, n, allGroups, size, p);
      ReadyPosition(perm, n, allGroups, size, q);
      if p / n == q / n {
        DistinctInReadyBlock(perm, p / n, n, allGroups[p / n], size, p, q);
      }
    }
  }

  lemma DistinctInReadyBlock(perm: seq<nat>, j: nat, n: nat, groups: seq<nat>, size: nat, p: nat, q: nat)
    requires BlockReady(perm, j, n, groups, size) && p < q < |perm| && p / n == q / n == j
    ensures perm[p] != perm[q]
  {
    DivBelow(p, 0, n);
    DivBelow(q, 0, n);
    var s := Segment(perm, j, n);
    NestedIsPermutation(s, groups, size);
    assert s[p - j * n] == perm[p] % n && s[q - j * n] == perm[q] % n;
  }

  // ----- the order in which the long chase visits the values

  /** Where in its block the first value of block j stands. */
  function Start(inverse: seq<nat>, n: nat, j: nat): (s: nat)
    requires 0 < n && 0 <= j * n < |inverse|
    ensures s < n
  {
    inverse[j * n] % n
  }

  ghost predicate LongPerm(perm: seq<nat>, inverse: seq<nat>, n: nat, iterations: nat) {
    0 < n && 0 < iterations && |perm| == iterations * n
    && IsPermutation(perm, 0) && Inverse(perm, inverse) && BlockPreserving(perm, n)
  }

  /** The k-th value visited in block j. */
  ghost function VisitAt(perm: seq<nat>, inverse: seq<nat>, n: nat, iterations: nat, j: nat, k: nat): (v: nat)
    requires LongPerm(perm, inverse, n, iterations) && j < iterations && k < n
    ensures v < |perm| && v / n == j
    ensures inverse[v] == j * n + Turn(Start(inverse, n, j), k, n)
  {
    BlockIndex(j, 0, iterations, n);
    var u := Turn(Start(inverse, n, j), k, n);
    BlockIndex(j, u, iterations, n);
    perm[j * n + u]
  }

  /** Every block is entered at its value zero. */
  lemma VisitFirst(perm: seq<nat>, inverse: seq<nat>, n: nat, iterations: nat, j: nat)
    requires LongPerm(perm, inverse, n, iterations) && j < iterations
    ensures VisitAt(perm, inverse, n, iterations, j, 0) == j * n
  {
    BlockIndex(j, 0, iterations, n);
    var p := inverse[j * n];
    assert perm[p] / n == p / n == j;
    DivBelow(p, 0, n);
  }

  /** The value zero of a block comes up again only after the whole block. */
  lemma VisitOnce(perm: seq<nat>, inverse: seq<nat>, n: nat, iterations: nat, j: nat, k: nat)
    requires LongPerm(perm, inverse, n, iterations) && j < iterations && k < n
    ensures VisitAt(perm, inverse, n, iterations, j, k) % n == 0 <==> k == 0
  {
    VisitFirst(perm, inverse, n, iterations, j);
    var v := VisitAt(perm, inverse, n, iterations, j, k);
    DivBelow(v, 0, n);
    BlockIndex(j, 0, iterations, n);
    if v % n == 0 {
      assert v == j * n;
      assert Turn(Start(inverse, n, j), k, n) == Turn(Start(inverse, n, j), 0, n);
    }
  }

  lemma LongNextDefined(perm: seq<nat>, inverse: seq<nat>, n: nat, iterations: nat, i: nat)
    requires LongPerm(perm, inverse, n, iterations) && i < |perm|
    ensures inverse[i] < |perm| && inverse[i] / n == i / n && 0 <= i / n < iterations
    ensures inverse[i] + 1 == |perm| ==> (inverse[i] + 1) % n == 0 && (inverse[i] + 1) / n > i / n
    ensures 0 <= i / n * n <= i / n * n + n <= |perm|
  {
    var p := inverse[i];
    assert perm[p] == i && perm[p] / n == p / n;
    DivBelow(i, iterations, n);
    DivBelow(i, 0, n);
    BlockIndex(i / n, 0, iterations, n);
    if p + 1 == |perm| {
      DivModUnique(p + 1, n, iterations, 0);
    }
  }

  /** The successor that the threading loop computes for value i. */
  ghost function LongNext(perm: seq<nat>, inverse: seq<nat>, n: nat, iterations: nat, i: nat): (w: nat)
    requires LongPerm(perm, inverse, n, iterations) && i < |perm|
  {
    LongNextDefined(perm, inverse, n, iterations, i);
    var next := inverse[i] + 1;
    var next' := if next % n == 0 && next / n > i / n then i / n * n else next;
    if perm[next'] % n == 0 then
      var first := (i / n + 1) * n;
      if first == iterations * n then 0 else first
    else perm[next']
  }

  /** Inside a block the loop follows the permutation cyclically; from the last value of a
      block it goes to the first value of the next block, and from the last block to the first. */
  lemma LongSuccessor(perm: seq<nat>, inverse: seq<nat>, n: nat, iterations: nat, j: nat, k: nat)
    requires LongPerm(perm, inverse, n, iterations) && j < iterations && k < n
    ensures var v := VisitAt(perm, inverse, n, iterations, j, k);
            LongNext(perm, inverse, n, iterations, v) ==
               if k + 1 == n then VisitAt(perm, inverse, n, iterations, Next(j, iterations), 0)
               else VisitAt(perm, inverse, n, iterations, j, k + 1)
  {
    var v := VisitAt(perm, inverse, n, iterations, j, k);
    LongNextDefined(perm, inverse, n, iterations, v);
    var u := Turn(Start(inverse, n, j), k, n);
    WrappedPosition(n, j, u);
    VisitPosition(perm, inverse, n, iterations, j, Next(k, n));
    VisitOnce(perm, inverse, n, iterations, j, Next(k, n));
    VisitFirst(perm, inverse, n, iterations, Next(j, iterations));
    NextBlock(n, iterations, j);
  }

  lemma VisitPosition(perm: seq<nat>, inverse: seq<nat>, n: nat, iterations: nat, j: nat, k: nat)
    requires LongPerm(perm, inverse, n, iterations) && j < iterations && k < n
    ensures var p := j * n + Turn(Start(inverse, n, j), k, n);
            0 <= p < |perm| && perm[p] == VisitAt(perm, inverse, n, iterations, j, k)
  {
    BlockIndex(j, 0, iterations, n);
  }

  /** The position after u in block j, as the loop computes it. */
  lemma WrappedPosition(n: nat, j: nat, u: nat)
    requires u < n
    ensures var next := j * n + u + 1;
            (next % n == 0 && next / n > j) == (u + 1 == n)
  {
    var next := j * n + u + 1;
    if u + 1 == n {
      assert next == (j + 1) * n + 0 by { assert (j + 1) * n == j * n + n; }
      DivModUnique(next, n, j + 1, 0);
    } else {
      DivModUnique(next, n, j, u + 1);
    }
  }

  lemma NextBlock(n: nat, iterations: nat, j: nat)
    requires j < iterations && 0 < n
    ensures (if (j + 1) * n == iterations * n then 0 else (j + 1) * n) == Next(j, iterations) * n
  {
    if j + 1 < iterations {
      MultiplesApart(j + 1, iterations, n);
    }
  }

  /** The order of all visits: block after block. */
  ghost function LongOrder(perm: seq<nat>, inverse: seq<nat>, n: nat, iterations: nat): (order: seq<nat>)
    requires LongPerm(perm, inverse, n, iterations)
    ensures |order| == |perm|
  {
    seq(|perm|, (t: nat) requires t < |perm| =>
      DivBelow(t, iterations, n); DivBelow(t, 0, n);
      VisitAt(perm, inverse, n, iterations, t / n, t % n))
  }

  lemma LongOrderAt(perm: seq<nat>, inverse: seq<nat>, n: nat, iterations: nat, t: nat)
    requires LongPerm(perm, inverse, n, iterations) && t < |perm|
    ensures 0 <= t / n < iterations && t == t / n * n + t % n
    ensures LongOrder(perm, inverse, n, iterations)[t] == VisitAt(perm, inverse, n, iterations, t / n, t % n)
  {
    DivBelow(t, iterations, n);
    DivBelow(t, 0, n);
  }

  /** The visits of block j take up exactly the j-th stretch of the order, its value zero first. */
  ghost predicate BlockByBlock(order: seq<nat>, n: nat) {
    0 < n && forall t | 0 <= t < |order| :: order[t] / n == t / n && (order[t] % n == 0 <==> t % n == 0)
  }

  lemma LongOrderIsPermutation(perm: seq<nat>, inverse: seq<nat>, n: nat, iterations: nat)
    requires LongPerm(perm, inverse, n, iterations)
    ensures IsPermutation(LongOrder(perm, inverse, n, iterations), 0)
    ensures BlockByBlock(LongOrder(perm, inverse, n, iterations), n)
  {
    var order := LongOrder(perm, inverse, n, iterations);
    forall t | 0 <= t < |order|
      ensures order[t] < |order| && order[t] / n == t / n && (order[t] % n == 0 <==> t % n == 0)
    {
      LongOrderAt(perm, inverse, n, iterations, t);
      VisitOnce(perm, inverse, n, iterations, t / n, t % n);
    }
    forall t, t' | 0 <= t < t' < |order|
      ensures order[t] != order[t']
    {
      LongOrderAt(perm, inverse, n, iterations, t);
      LongOrderAt(perm, inverse, n, iterations, t');
      assert t / n != t' / n || t % n != t' % n;
    }
  }

  lemma LongOrderSuccessor(perm: seq<nat>, inverse: seq<nat>, n: nat, iterations: nat, t: nat)
    requires LongPerm(perm, inverse, n, iterations) && t < |perm|
    ensures var order := LongOrder(perm, inverse, n, iterations);
            order[t] < |perm| && LongNext(perm, inverse, n, iterations, order[t]) == order[Next(t, |perm|)]
  {
    LongOrderAt(perm, inverse, n, iterations, t);
    LongSuccessor(perm, inverse, n, iterations, t / n, t % n);
    NextVisit(t, n, iterations);
    LongOrderAt(perm, inverse, n, iterations, Next(t, |perm|));
  }

  /** Block and offset of the visit after t. */
  lemma NextVisit(t: nat, n: nat, iterations: nat)
    requires 0 < n && t < iterations * n
    ensures 0 <= t / n < iterations
    ensures var t' := Next(t, iterations * n);
            t' / n == (if t % n + 1 == n then Next(t / n, iterations) else t / n)
            && t' % n == Next(t % n, n)
  {
    DivBelow(t, iterations, n);
    DivBelow(t, 0, n);
    var j, k := t / n, t % n;
    NextBlock(n, iterations, j);
    assert (j + 1) * n == j * n + n;
    BlockIndex(j, 0, iterations, n);
    if k + 1 == n {
      DivModUnique(Next(t, iterations * n), n, Next(j, iterations), 0);
    } else {
      DivModUnique(Next(t, iterations * n), n, j, k + 1);
    }
  }

  /** Within block j the groups stay together as in a single permutation. */
  lemma LongGroupsTogether(perm: seq<nat>, inverse: seq<nat>, n: nat, iterations: nat, j: nat, groups: seq<nat>,
                           size: nat)
    requires LongPerm(perm, inverse, n, iterations) && j < iterations && BlockReady(perm, j, n, groups, size)
    ensures GroupsTogether(Segment(LongOrder(perm, inverse, n, iterations), j, n), size)
  {
    var order := LongOrder(perm, inverse, n, iterations);
    var s := Segment(perm, j, n);
    NestedGroupsTogether(s, groups, size, Start(inverse, n, j));
    BlockIndex(j, 0, iterations, n);
    forall k | 0 <= k < n
      ensures Segment(order, j, n)[k] == Rotated(s, Start(inverse, n, j))[k]
    {
      SegmentAt(perm, inverse, n, iterations, j, k);
    }
    assert Segment(order, j, n) == Rotated(s, Start(inverse, n, j));
  }

  lemma SegmentAt(perm: seq<nat>, inverse: seq<nat>, n: nat, iterations: nat, j: nat, k: nat)
    requires LongPerm(perm, inverse, n, iterations) && j < iterations && k < n
    ensures 0 <= j * n && j * n + n <= |perm|
    ensures Segment(LongOrder(perm, inverse, n, iterations), j, n)[k] ==
              Rotated(Segment(perm, j, n), Start(inverse, n, j))[k]
  {
    BlockIndex(j, 0, iterations, n);
    var u := Turn(Start(inverse, n, j), k, n);
    OrderInBlock(perm, inverse, n, iterations, j, k, u);
    assert Segment(perm, j, n)[u] == perm[j * n + u] % n;
  }

  lemma OrderInBlock(perm: seq<nat>, inverse: seq<nat>, n: nat, iterations: nat, j: nat, k: nat, u: nat)
    requires LongPerm(perm, inverse, n, iterations) && j < iterations && k < n && 0 <= j * n < |perm|
    requires u == Turn(Start(inverse, n, j), k, n)
    ensures 0 <= j * n + u < |perm| && 0 <= j * n + k < |perm|
    ensures LongOrder(perm, inverse, n, iterations)[j * n + k] == perm[j * n + u]
  {
    BlockIndex(j, k, iterations, n);
    BlockIndex(j, u, iterations, n);
    LongOrderAt(perm, inverse, n, iterations, j * n + k);
    VisitPosition(perm, inverse, n, iterations, j, k);
  }

  // ----- threading

  /** Value v stands for element v % n on row row0 + v / n of the mixer table. */
  ghost function LongCell(l: ArenaLayout, row0: nat, v: nat): nat
    requires 0 < l.stride && 0 < l.NrElts() && 0 < l.nrMixerIndices && 0 < l.nrMixers
  {
    l.Cell(row0 + v / l.NrElts(), v % l.NrElts())
  }

  /** In plain numbers: element v % n of the arena, at the slot that row row0 + v / n of the table has
      for it. */
  lemma LongCellIs(l: ArenaLayout, row0: nat, v: nat)
    requires l.Valid() && 0 < l.NrElts() && row0 + v / l.NrElts() < l.nrMixerIndices
    ensures var n := l.totalMemory / l.stride;
            var entry := (row0 + v / n) * l.nrMixers + v % n % l.nrMixers;
            0 < l.nrMixers && 0 < n && 0 <= entry < |l.mixer|
            && LongCell(l, row0, v) == l.base + v % n * l.stride + l.mixer[entry] * (l.stride / l.nrMixerIndices)
  {
    CellIs(l, row0 + v / l.NrElts(), v % l.NrElts());
  }

  ghost function LongCells(l: ArenaLayout, row0: nat, order: seq<nat>): (ring: seq<nat>)
    requires 0 < l.stride && 0 < l.NrElts() && 0 < l.nrMixerIndices && 0 < l.nrMixers
    ensures |ring| == |order|
    ensures forall k | 0 <= k < |order| :: ring[k] == LongCell(l, row0, order[k])
  {
    seq(|order|, k requires 0 <= k < |order| => LongCell(l, row0, order[k]))
  }

  /** All the given cells hold NULL. */
  ghost predicate Blank(m: Memory, cells: seq<nat>) {
    forall v | 0 <= v < |cells| :: m.Has(cells[v], PTR_SIZE) && m.Load(cells[v]) == 0
  }

  /** The two memories differ at most in the pointer cells of these rows. */
  ghost predicate OnlyRowsChanged(l: ArenaLayout, row0: nat, iterations: nat, m: Memory, w: Memory)
    requires 0 < l.stride && 0 < l.nrMixerIndices && 0 < l.nrMixers
  {
    w.base == m.base && |w.bytes| == |m.bytes|
    && forall a: nat | m.Has(a, 1) && OutsideRows(l, row0, iterations, a) :: w.Byte(a) == m.Byte(a)
  }

  ghost predicate OutsideRows(l: ArenaLayout, row0: nat, iterations: nat, a: nat)
    requires 0 < l.stride && 0 < l.nrMixerIndices && 0 < l.nrMixers
  {
    forall r: nat | row0 <= r < row0 + iterations :: OutsideRow(l, r, a)
  }

  /** Arguments under which value v < iterations*n names a cell of its own. */
  ghost predicate LongReady(args: ChaseArgs, row0: nat, iterations: nat)
    reads args, args.arena
  {
    Ready(args) && 0 < args.View().NrElts() && row0 + iterations <= args.nrMixerIndices
  }

  lemma LongCellInArena(args: ChaseArgs, row0: nat, iterations: nat, v: nat)
    requires LongReady(args, row0, iterations) && v < iterations * args.View().NrElts()
    ensures args.arena.View().Has(LongCell(args.View(), row0, v), args.View().MixerScale())
    ensures LongCell(args.View(), row0, v) < ADDRESS_LIMIT
  {
    var n := args.View().NrElts();
    DivBelow(v, iterations, n);
    DivBelow(v, 0, n);
    CellInArena(args, row0 + v / n, v % n);
  }

  lemma LongCellsApart(args: ChaseArgs, row0: nat, iterations: nat, v: nat, w: nat)
    requires LongReady(args, row0, iterations) && v != w
    requires v < iterations * args.View().NrElts() && w < iterations * args.View().NrElts()
    ensures var l := args.View();
            LongCell(l, row0, v) + l.MixerScale() <= LongCell(l, row0, w)
            || LongCell(l, row0, w) + l.MixerScale() <= LongCell(l, row0, v)
  {
    var n := args.View().NrElts();
    DivBelow(v, iterations, n);
    DivBelow(w, iterations, n);
    DivBelow(v, 0, n);
    DivBelow(w, 0, n);
    CellsApart(args.View(), row0 + v / n, v % n, row0 + w / n, w % n);
  }

  /** The values 0, ..., n-1 in this order. */
  ghost function Counted(n: nat): (s: seq<nat>)
    ensures |s| == n && forall v | 0 <= v < n :: s[v] == v
  {
    seq(n, v requires 0 <= v < n => v)
  }

  /** The cells of all values of the chase: spaced, and inside the arena. */
  lemma LongCellsSpaced(args: ChaseArgs, row0: nat, iterations: nat)
    requires LongReady(args, row0, iterations) && 0 <= iterations * args.View().NrElts()
    ensures var cells := LongCells(args.View(), row0, Counted(iterations * args.View().NrElts()));
            Spaced(cells, args.View().MixerScale())
            && forall v | 0 <= v < |cells| :: args.arena.View().Has(cells[v], PTR_SIZE) && cells[v] < ADDRESS_LIMIT
  {
    var cells := LongCells(args.View(), row0, Counted(iterations * args.View().NrElts()));
    forall v | 0 <= v < |cells|
      ensures args.arena.View().Has(cells[v], PTR_SIZE) && cells[v] < ADDRESS_LIMIT
    {
      LongCellInArena(args, row0, iterations, v);
    }
    forall v, w | 0 <= v < w < |cells|
      ensures cells[v] + args.View().MixerScale() <= cells[w] || cells[w] + args.View().MixerScale() <= cells[v]
    {
      LongCellsApart(args, row0, iterations, v, w);
    }
  }

  // Threading, for any spaced cells and any successor of each.

  /** The first i cells point to their successors, the others still hold what they held. */
  ghost predicate PartlyThreaded(was: Memory, m: Memory, cells: seq<nat>, succ: seq<nat>, i: nat) {
    |succ| == |cells| && i <= |cells|
    && (forall v | 0 <= v < |cells| :: succ[v] < |cells| && m.Has(cells[v], PTR_SIZE) && was.Has(cells[v], PTR_SIZE))
    && (forall v | 0 <= v < i :: m.Load(cells[v]) == cells[succ[v]])
    && forall v | i <= v < |cells| :: m.Load(cells[v]) == was.Load(cells[v])
  }

  lemma OneMoreThreaded(was: Memory, m: Memory, w: Memory, cells: seq<nat>, succ: seq<nat>, i: nat)
    requires PartlyThreaded(was, m, cells, succ, i) && i < |cells| && Spaced(cells, PTR_SIZE)
    requires w.SameOutside(m, cells[i], PTR_SIZE) && w.Load(cells[i]) == cells[succ[i]]
    ensures PartlyThreaded(was, w, cells, succ, i + 1)
  {
    forall v | 0 <= v < |cells| && v != i
      ensures w.Load(cells[v]) == m.Load(cells[v])
    {
      assert cells[i] + PTR_SIZE <= cells[v] || cells[v] + PTR_SIZE <= cells[i] by { assert v < i || i < v; }
      LoadFrame(m, w, cells[v]);
    }
  }

  /** Cells threaded along an order are the ring of that order. */
  lemma ThreadedAlong(was: Memory, m: Memory, cells: seq<nat>, succ: seq<nat>, order: seq<nat>, ring: seq<nat>, d: nat)
    requires PartlyThreaded(was, m, cells, succ, |cells|) && Spaced(cells, d) && 0 < d
    requires 0 < |order| == |cells| == |ring| && IsPermutation(order, 0)
    requires forall t | 0 <= t < |order| :: ring[t] == cells[order[t]]
    requires forall t | 0 <= t < |order| :: succ[order[t]] == order[Next(t, |order|)]
    ensures IsRing(m, ring) && Spaced(ring, d)
  {
    forall t | 0 <= t < |ring|
      ensures m.Has(ring[t], PTR_SIZE) && m.Load(ring[t]) == ring[Next(t, |ring|)]
    {
      assert m.Load(cells[order[t]]) == cells[succ[order[t]]];
    }
    ReorderedSpaced(cells, order, ring, d);
  }

  lemma ReorderedSpaced(cells: seq<nat>, order: seq<nat>, ring: seq<nat>, d: nat)
    requires |order| == |cells| == |ring| && IsPermutation(order, 0) && Spaced(cells, d) && 0 < d
    requires forall t | 0 <= t < |order| :: ring[t] == cells[order[t]]
    ensures Spaced(ring, d) && Distinct(ring)
  {
    forall i, j | 0 <= i < j < |ring|
      ensures ring[i] != ring[j] && (ring[i] + d <= ring[j] || ring[j] + d <= ring[i])
    {
      assert order[i] < order[j] || order[j] < order[i];
    }
  }

  /** A store to one of the cells changes nothing outside the rows. */
  lemma StoreInRows(args: ChaseArgs, was: Memory, m: Memory, w: Memory, row0: nat, iterations: nat, i: nat)
    requires LongReady(args, row0, iterations) && i < iterations * args.View().NrElts()
    requires OnlyRowsChanged(args.View(), row0, iterations, was, m)
    requires w.SameOutside(m, LongCell(args.View(), row0, i), PTR_SIZE)
    ensures OnlyRowsChanged(args.View(), row0, iterations, was, w)
  {
    var l := args.View();
    var n := l.NrElts();
    DivBelow(i, iterations, n);
    DivBelow(i, 0, n);
    forall a: nat | m.Has(a, 1) && OutsideRows(l, row0, iterations, a)
      ensures w.Byte(a) == was.Byte(a)
    {
      assert OutsideRow(l, row0 + i / n, a);
      assert w.Byte(a) == m.Byte(a);
    }
  }

  /** The successors that the threading loop computes. */
  ghost function LongSuccessors(perm: seq<nat>, inverse: seq<nat>, n: nat, iterations: nat): (succ: seq<nat>)
    requires LongPerm(perm, inverse, n, iterations)
    ensures |succ| == |perm|
    ensures forall v | 0 <= v < |perm| :: succ[v] == LongNext(perm, inverse, n, iterations, v)
  {
    seq(|perm|, v requires 0 <= v < |perm| => LongNext(perm, inverse, n, iterations, v))
  }

  /** The fully threaded cells are one ring, visited in the long order. */
  lemma LongRing(args: ChaseArgs, was: Memory, m: Memory, row0: nat, iterations: nat, perm: seq<nat>, inverse: seq<nat>)
    requires LongReady(args, row0, iterations) && LongPerm(perm, inverse, args.View().NrElts(), iterations)
    requires m.base == args.arena.base && |m.bytes| == args.arena.bytes.Length
    requires PartlyThreaded(was, m, LongCells(args.View(), row0, Counted(|perm|)),
                            LongSuccessors(perm, inverse, args.View().NrElts(), iterations), |perm|)
    ensures var l := args.View();
            var ring := LongCells(l, row0, LongOrder(perm, inverse, l.NrElts(), iterations));
            IsRing(m, ring) && Spaced(ring, l.MixerScale()) && ring[0] == LongCell(l, row0, 0)
  {
    var l, n := args.View(), args.View().NrElts();
    var order, succ := LongOrder(perm, inverse, n, iterations), LongSuccessors(perm, inverse, n, iterations);
    var cells, ring := LongCells(l, row0, Counted(|perm|)), LongCells(l, row0, order);
    LongOrderIsPermutation(perm, inverse, n, iterations);
    LongCellsSpaced(args, row0, iterations);
    forall t | 0 <= t < |order|
      ensures ring[t] == cells[order[t]] && succ[order[t]] == order[Next(t, |order|)]
    {
      LongOrderSuccessor(perm, inverse, n, iterations, t);
    }
    BlockIndex(0, 0, iterations, n);
    ThreadedAlong(was, m, cells, succ, order, ring, l.MixerScale());
    FirstOfAll(perm, inverse, n, iterations);
  }

  lemma FirstOfAll(perm: seq<nat>, inverse: seq<nat>, n: nat, iterations: nat)
    requires LongPerm(perm, inverse, n, iterations)
    ensures 0 < |perm| && LongOrder(perm, inverse, n, iterations)[0] == 0
  {
    BlockIndex(0, 0, iterations, n);
    LongOrderAt(perm, inverse, n, iterations, 0);
    VisitFirst(perm, inverse, n, iterations, 0);
  }

  /** Thread a long chase: nr_mixer_indices / total_par blocks, each a permutation of all the
      elements on a row of its own. None where the run aborts on a cell that is not NULL. */
  method GenerateChaseLong(args: ChaseArgs, mixerIdx: nat, totalPar: nat, rng: Rng, ghost own: set<nat>,
                           ghost rewrite: Rewrite)
    returns (head: Option<nat>, ghost order: seq<nat>, ghost row0: nat, ghost iterations: nat, ghost task: Task)
    requires Ready(args) && mixerIdx < totalPar <= args.nrMixerIndices
    requires OwnsRows(own, args.View(), mixerIdx * (args.nrMixerIndices / totalPar), args.nrMixerIndices / totalPar)
    modifies args.arena.bytes, rng
    ensures iterations == args.nrMixerIndices / totalPar && row0 == mixerIdx * iterations
    ensures 0 < iterations && LongReady(args, row0, iterations)
    ensures OnlyRowsChanged(args.View(), row0, iterations, old(args.arena.View()), args.arena.View())
    ensures 0 < |order| == iterations * args.View().NrElts()
    ensures head.Some? <==> Blank(old(args.arena.View()), LongCells(args.View(), row0, Counted(|order|)))
    ensures IsPermutation(order, 0) && BlockByBlock(order, args.View().NrElts())
    ensures forall j: nat | j < iterations ::
              SegmentTogether(order, j, args.View().NrElts(), args.View().NrEltsPerTlb())
    ensures DrawnOrder(order, Source(args.generator, rng.draws), old(rng.used), args.View().NrTlbGroups(),
                       args.View().NrEltsPerTlb(), iterations)
    ensures WordsUsed(args.View(), Source(args.generator, rng.draws), old(rng.used), rng.used, iterations)
    ensures head.Some? ==>
              var ring := LongCells(args.View(), row0, order);
              IsRing(args.arena.View(), ring) && Spaced(ring, args.View().MixerScale()) && head.value == ring[0]
    ensures head.Some? ==> task.head == head.value && task.rewrite == rewrite
    ensures Builds(own, task, Threading(0), old(args.arena.View()), if head.Some? then Rewriting(task) else Aborted,
                   args.arena.View())
  {
    ghost var l := args.View();
    RoundedCounts(l);
    var nrIteration := args.nrMixerIndices / totalPar;
    RowsOf(args.nrMixerIndices, totalPar, mixerIdx);
    iterations := nrIteration;
    var first := mixerIdx * nrIteration;
    row0 := first;
    var nrElts := args.totalMemory / args.stride;

    ghost var allGroups;
    var perm;
    perm, allGroups := Permute(args, nrIteration, rng);
    var permInverse := Invert(perm);
    order := LongOrder(perm[..], permInverse[..], nrElts, nrIteration);
    LongOrderIsPermutation(perm[..], permInverse[..], nrElts, nrIteration);
    LongOrderDrawn(perm[..], permInverse[..], Source(args.generator, rng.draws), old(rng.used), l.NrTlbGroups(),
                   l.NrEltsPerTlb(), nrElts, nrIteration, rng.used);
    BlockIndex(0, 0, nrIteration, nrElts);
    forall j: nat | j < nrIteration
      ensures SegmentTogether(order, j, nrElts, l.NrEltsPerTlb())
    {
      BlockIndex(j, 0, nrIteration, nrElts);
      LongGroupsTogether(perm[..], permInverse[..], nrElts, nrIteration, j, allGroups[j], l.NrEltsPerTlb());
    }

    task := LongTask(l, row0, perm[..], permInverse[..], nrIteration, rewrite);
    var ok := ThreadLong(args, first, nrIteration, perm, permInverse, own, task);
    if !ok {
      return None, order, row0, iterations, task;
    }
    LongRing(args, old(args.arena.View()), args.arena.View(), row0, iterations, perm[..], permInverse[..]);
    head := Some(args.View().Cell(first, 0));
    SmallModulo(0, nrElts);
  }

  ghost predicate SegmentTogether(order: seq<nat>, j: nat, n: nat, size: nat) {
    0 < n && 0 < size && 0 <= j * n && j * n + n <= |order| && GroupsTogether(Segment(order, j, n), size)
  }

  /** The rows of different mixer indices below total_par do not collide. */
  lemma RowsOf(nrMixerIndices: nat, totalPar: nat, mixerIdx: nat)
    requires mixerIdx < totalPar <= nrMixerIndices
    ensures var q := nrMixerIndices / totalPar;
            0 < q && 0 <= mixerIdx * q && mixerIdx * q + q <= nrMixerIndices
  {
    var q := nrMixerIndices / totalPar;
    DivBelow(nrMixerIndices, 1, totalPar);
    DivBelow(nrMixerIndices, 0, totalPar);
    BlockIndex(mixerIdx, 0, totalPar, q);
    assert totalPar * q == q * totalPar;
  }

  /** The words that a chase of these blocks takes: one for each group and each element of a block. */
  ghost predicate WordsUsed(l: ArenaLayout, g: Source, from: nat, used: nat, blocks: nat)
    requires 0 < l.stride && 0 < l.tlbLocality
  {
    var n := l.NrTlbGroups() + l.NrElts();
    0 <= blocks * n && used == from + g.Used(blocks * n)
  }

  /** Block j of the permutation is made of its share of the words. */
  ghost predicate BlockDrawnAt(perm: seq<nat>, g: Source, from: nat, nrGroups: nat, size: nat, n: nat, j: nat) {
    0 <= j * n && 0 <= j * (nrGroups + n)
    && DrawnBlock(perm, j * n, g, from + g.Used(j * (nrGroups + n)), nrGroups, size, j * n)
  }

  ghost predicate BlocksDrawn(perm: seq<nat>, g: Source, from: nat, nrGroups: nat, size: nat, n: nat, blocks: nat,
                              used: nat) {
    0 <= blocks * (nrGroups + n) && used == from + g.Used(blocks * (nrGroups + n))
    && forall j: nat | j < blocks :: BlockDrawnAt(perm, g, from, nrGroups, size, n, j)
  }

  lemma DrawnBlockKept(p: seq<nat>, q: seq<nat>, at: nat, g: Source, from: nat, nrGroups: nat, size: nat, base: nat,
                       lo: nat)
    requires DrawnBlock(p, at, g, from, nrGroups, size, base) && |p| == |q| && at + nrGroups * size <= lo
    requires forall k | 0 <= k < lo && k < |p| :: q[k] == p[k]
    ensures DrawnBlock(q, at, g, from, nrGroups, size, base)
  {
    var groups, next := g.Made(from, nrGroups, 0), from + g.Used(nrGroups);
    forall b | 0 <= b < nrGroups
      ensures GroupDrawn(q, at, g, next, groups, size, base, b)
    {
      assert GroupDrawn(p, at, g, next, groups, size, base, b);
      MultiplesApart(b, nrGroups, size);
      PartKept(p, q, at, g, next, size, base, b * size, groups[b] * size, lo);
    }
  }

  /** One more block, made of the next words. */
  lemma DrawnBlockAdded(p: seq<nat>, q: seq<nat>, g: Source, from: nat, nrGroups: nat, size: nat, n: nat, j: nat,
                        base: nat, used: nat)
    requires BlocksDrawn(p, g, from, nrGroups, size, n, j, used) && n == nrGroups * size && base == j * n
    requires DrawnBlock(q, base, g, used, nrGroups, size, base) && |p| == |q|
    requires forall k | 0 <= k < |p| && !(base <= k < base + n) :: q[k] == p[k]
    ensures BlocksDrawn(q, g, from, nrGroups, size, n, j + 1, used + g.Used(nrGroups + n))
  {
    MulSucc(j, nrGroups + n);
    forall i: nat | i < j + 1
      ensures BlockDrawnAt(q, g, from, nrGroups, size, n, i)
    {
      if i < j {
        assert BlockDrawnAt(p, g, from, nrGroups, size, n, i);
        MultiplesApart(i, j, n);
        DrawnBlockKept(p, q, i * n, g, from + g.Used(i * (nrGroups + n)), nrGroups, size, i * n, base);
      }
    }
  }

  /** Block by block, the long order is made of the words. */
  lemma LongOrderDrawn(perm: seq<nat>, inverse: seq<nat>, g: Source, from: nat, nrGroups: nat, size: nat, n: nat,
                       iterations: nat, used: nat)
    requires LongPerm(perm, inverse, n, iterations) && n == nrGroups * size
    requires BlocksDrawn(perm, g, from, nrGroups, size, n, iterations, used)
    ensures DrawnOrder(LongOrder(perm, inverse, n, iterations), g, from, nrGroups, size, iterations)
  {
    var order := LongOrder(perm, inverse, n, iterations);
    forall j: nat | j < iterations
      ensures BlockFromWords(order, perm, g, from, nrGroups, size, j)
    {
      assert BlockDrawnAt(perm, g, from, nrGroups, size, n, j);
      BlockReadFrom(perm, inverse, n, iterations, j);
    }
  }

  lemma BlockReadFrom(perm: seq<nat>, inverse: seq<nat>, n: nat, iterations: nat, j: nat)
    requires LongPerm(perm, inverse, n, iterations) && j < iterations
    ensures 0 <= j * n && j * n + n <= |perm|
    ensures exists s :: 0 <= s < n && ReadFrom(LongOrder(perm, inverse, n, iterations), perm, j * n, n, s)
  {
    BlockIndex(j, 0, iterations, n);
    var s := Start(inverse, n, j);
    forall k | 0 <= k < n
      ensures LongOrder(perm, inverse, n, iterations)[j * n + k] == perm[j * n + Turn(s, k, n)]
    {
      OrderInBlock(perm, inverse, n, iterations, j, k, Turn(s, k, n));
    }
    assert ReadFrom(LongOrder(perm, inverse, n, iterations), perm, j * n, n, s);
  }

  /** Generate one permutation after the other, each of its own block of values. */
  method Permute(args: ChaseArgs, nrIteration: nat, rng: Rng) returns (perm: array<nat>, ghost allGroups: seq<seq<nat>>)
    requires args.View().Valid() && 0 < nrIteration
    modifies rng
    ensures fresh(perm) && 0 < args.View().NrElts() && 0 < args.View().NrEltsPerTlb()
    ensures |allGroups| == nrIteration && perm.Length == nrIteration * args.View().NrElts()
    ensures BlocksReady(perm[..], args.View().NrElts(), allGroups, args.View().NrEltsPerTlb())
    ensures args.View().NrElts() == args.View().NrTlbGroups() * args.View().NrEltsPerTlb()
    ensures BlocksDrawn(perm[..], Source(args.generator, rng.draws), old(rng.used), args.View().NrTlbGroups(),
                        args.View().NrEltsPerTlb(), args.View().NrElts(), nrIteration, rng.used)
    ensures IsPermutation(perm[..], 0) && BlockPreserving(perm[..], args.View().NrElts())
  {
    RoundedCounts(args.View());
    var nrTlbGroups := args.totalMemory / args.tlbLocality;
    var nrEltsPerTlb := args.tlbLocality / args.stride;
    var nrElts := args.totalMemory / args.stride;
    MulMono(0, nrIteration, nrElts);
    perm := new nat[nrIteration * nrElts];
    allGroups := [];
    ghost var g, from := Source(args.generator, rng.draws), rng.used;
    var j := 0;
    while j < nrIteration
      invariant 0 <= j <= nrIteration && |allGroups| == j
      invariant BlocksReady(perm[..], nrElts, allGroups, nrEltsPerTlb)
      invariant BlocksDrawn(perm[..], g, from, nrTlbGroups, nrEltsPerTlb, nrElts, j, rng.used)
    {
      ghost var before, used := perm[..], rng.used;
      BlockIndex(j, 0, nrIteration, nrElts);
      var base := j * nrElts;
      ghost var groups := FillBlock(args.generator, perm, base, nrElts, nrTlbGroups, nrEltsPerTlb, base, rng);
      BlockAdded(before, perm[..], nrElts, allGroups, nrEltsPerTlb, groups);
      DrawnBlockAdded(before, perm[..], g, from, nrTlbGroups, nrEltsPerTlb, nrElts, j, base, used);
      allGroups := allGroups + [groups];
      j := j + 1;
    }
    BlocksReadyIsPermutation(perm[..], nrElts, allGroups, nrEltsPerTlb);
  }

  /** Filling the next block keeps the blocks before it. */
  lemma BlockAdded(p: seq<nat>, q: seq<nat>, n: nat, allGroups: seq<seq<nat>>, size: nat, groups: seq<nat>)
    requires 0 < n && 0 < size && |p| == |q| && BlocksReady(p, n, allGroups, size)
    requires 0 <= |allGroups| * n && |allGroups| * n + n <= |q|
    requires forall k | 0 <= k < |p| && !(|allGroups| * n <= k < |allGroups| * n + n) :: q[k] == p[k]
    requires var base := |allGroups| * n;
             (forall k | base <= k < base + n :: base <= q[k])
             && IsPermutation(groups, 0) && Nested(Lowered(q[base..base + n], base), groups, size)
    ensures BlocksReady(q, n, allGroups + [groups], size)
  {
    BlockReadyFromFill(q, |allGroups|, n, groups, size);
    forall j | 0 <= j < |allGroups|
      ensures BlockReady(q, j, n, allGroups[j], size)
    {
      assert BlockReady(p, j, n, allGroups[j], size);
      MultiplesApart(j, |allGroups|, n);
      BlockReadyFrame(p, q, j, n, allGroups[j], size);
    }
  }

  /** The threading of a long chase as a list of tests and stores. */
  ghost function LongTask(l: ArenaLayout, row0: nat, perm: seq<nat>, inverse: seq<nat>, iterations: nat,
                          rewrite: Rewrite): (t: Task)
    requires 0 < l.stride && 0 < l.NrElts() && 0 < l.nrMixerIndices && 0 < l.nrMixers
    requires LongPerm(perm, inverse, l.NrElts(), iterations)
    ensures Along(t, LongCells(l, row0, Counted(|perm|)), LongSuccessors(perm, inverse, l.NrElts(), iterations))
    ensures t.rewrite == rewrite && t.head == l.Cell(row0, 0)
  {
    var cells, succ := LongCells(l, row0, Counted(|perm|)), LongSuccessors(perm, inverse, l.NrElts(), iterations);
    Task(cells, seq(|succ|, v requires 0 <= v < |succ| => if succ[v] < |cells| then cells[succ[v]] else 0),
         true, l.Cell(row0, 0), rewrite)
  }

  ghost predicate Along(t: Task, cells: seq<nat>, succ: seq<nat>) {
    t.tested && t.cells == cells && |t.links| == |succ| == |cells|
    && forall v | 0 <= v < |succ| && succ[v] < |cells| :: t.links[v] == cells[succ[v]]
  }

  /** The pointer cells of these rows are among the thread's own addresses. */
  ghost predicate OwnsRows(own: set<nat>, l: ArenaLayout, row0: int, count: int)
    requires 0 < l.stride && 0 < l.nrMixerIndices && 0 < l.nrMixers
  {
    forall r: nat | row0 <= r < row0 + count :: OwnsRow(own, l, r)
  }

  lemma OwnsLong(args: ChaseArgs, own: set<nat>, row0: nat, iterations: nat)
    requires LongReady(args, row0, iterations) && OwnsRows(own, args.View(), row0, iterations)
             && 0 <= iterations * args.View().NrElts()
    ensures OwnsCells(own, LongCells(args.View(), row0, Counted(iterations * args.View().NrElts())))
  {
    var l, n := args.View(), args.View().NrElts();
    forall v: nat | v < iterations * n
      ensures Covered(own, LongCell(l, row0, v), PTR_SIZE)
    {
      DivBelow(v, iterations, n);
      DivBelow(v, 0, n);
      assert OwnsRow(own, l, row0 + v / n);
    }
  }

  /** The state of the threading loop in front of value i. */
  ghost predicate LongSoFar(l: ArenaLayout, row0: nat, iterations: nat, was: Memory, m: Memory, cells: seq<nat>,
                            succ: seq<nat>, own: set<nat>, task: Task, i: nat)
    requires 0 < l.stride && 0 < l.nrMixerIndices && 0 < l.nrMixers && i <= |cells|
  {
    PartlyThreaded(was, m, cells, succ, i) && BlankBelow(was, cells, i) && OnlyRowsChanged(l, row0, iterations, was, m)
    && Builds(own, task, Threading(0), was, Threading(i), m)
  }

  /** The threading loop, with its test that no cell is written twice. */
  method ThreadLong(args: ChaseArgs, row0: nat, nrIteration: nat, perm: array<nat>, permInverse: array<nat>,
                    ghost own: set<nat>, ghost task: Task) returns (ok: bool)
    requires LongReady(args, row0, nrIteration) && OwnsRows(own, args.View(), row0, nrIteration)
    requires LongPerm(perm[..], permInverse[..], args.View().NrElts(), nrIteration)
    requires Along(task, LongCells(args.View(), row0, Counted(perm.Length)),
                   LongSuccessors(perm[..], permInverse[..], args.View().NrElts(), nrIteration))
    modifies args.arena.bytes
    ensures perm[..] == old(perm[..]) && permInverse[..] == old(permInverse[..])
    ensures OnlyRowsChanged(args.View(), row0, nrIteration, old(args.arena.View()), args.arena.View())
    ensures ok <==> Blank(old(args.arena.View()), LongCells(args.View(), row0, Counted(perm.Length)))
    ensures ok ==> PartlyThreaded(old(args.arena.View()), args.arena.View(),
                                  LongCells(args.View(), row0, Counted(perm.Length)),
                                  LongSuccessors(perm[..], permInverse[..], args.View().NrElts(), nrIteration),
                                  perm.Length)
    ensures Builds(own, task, Threading(0), old(args.arena.View()), if ok then Rewriting(task) else Aborted,
                   args.arena.View())
  {
    var nrElts := args.totalMemory / args.stride;
    ghost var cells := LongCells(args.View(), row0, Counted(perm.Length));
    LongCellsSpaced(args, row0, nrIteration);
    OwnsLong(args, own, row0, nrIteration);
    SuccessorsInRange(perm[..], permInverse[..], nrElts, nrIteration);
    BuildsNothing(own, task, Threading(0), args.arena.View());
    ok := LinkAll(args, row0, nrIteration, nrElts, perm, permInverse, cells, own, task);
  }

  /** The loop itself. */
  method LinkAll(args: ChaseArgs, row0: nat, nrIteration: nat, nrElts: nat, perm: array<nat>, permInverse: array<nat>,
                 ghost cells: seq<nat>, ghost own: set<nat>, ghost task: Task) returns (ok: bool)
    requires LongReady(args, row0, nrIteration) && nrElts == args.View().NrElts() && nrIteration * nrElts == perm.Length
    requires LongPerm(perm[..], permInverse[..], nrElts, nrIteration)
    requires cells == LongCells(args.View(), row0, Counted(perm.Length)) && Spaced(cells, PTR_SIZE)
             && OwnsCells(own, cells)
    requires Along(task, cells, LongSuccessors(perm[..], permInverse[..], nrElts, nrIteration))
    requires LongSoFar(args.View(), row0, nrIteration, args.arena.View(), args.arena.View(), cells,
                       LongSuccessors(perm[..], permInverse[..], nrElts, nrIteration), own, task, 0)
    modifies args.arena.bytes
    ensures perm[..] == old(perm[..]) && permInverse[..] == old(permInverse[..])
    ensures OnlyRowsChanged(args.View(), row0, nrIteration, old(args.arena.View()), args.arena.View())
    ensures ok <==> Blank(old(args.arena.View()), cells)
    ensures ok ==> PartlyThreaded(old(args.arena.View()), args.arena.View(), cells,
                                  LongSuccessors(perm[..], permInverse[..], nrElts, nrIteration), perm.Length)
    ensures ok ==> Builds(own, task, Threading(0), old(args.arena.View()), Rewriting(task), args.arena.View())
    ensures !ok ==> Builds(own, task, Threading(0), old(args.arena.View()), Aborted, args.arena.View())
  {
    ghost var l, p, q, was := args.View(), perm[..], permInverse[..], args.arena.View();
    ghost var succ := LongSuccessors(p, q, nrElts, nrIteration);
    var i := 0;
    while i < perm.Length
      invariant 0 <= i <= perm.Length && perm[..] == p && permInverse[..] == q
      invariant LongSoFar(l, row0, nrIteration, was, args.arena.View(), cells, succ, own, task, i)
    {
      var next := LongTarget(nrElts, nrIteration, perm, permInverse, i);
      ok := ThreadLongOne(args, row0, nrIteration, nrElts, i, next, was, cells, succ, own, task);
      if !ok {
        return;
      }
      i := i + 1;
    }
    DidSkip(own, task, Threading(0), was, Threading(i), args.arena.View());
    return true;
  }

  /** One round: test the cell of value i, and link it to the cell of value next. */
  method ThreadLongOne(args: ChaseArgs, row0: nat, nrIteration: nat, nrElts: nat, i: nat, next: nat,
                       ghost was: Memory, ghost cells: seq<nat>, ghost succ: seq<nat>, ghost own: set<nat>,
                       ghost task: Task)
    returns (ok: bool)
    requires LongReady(args, row0, nrIteration) && nrElts == args.View().NrElts() && i < |cells| == nrIteration * nrElts
    requires cells == LongCells(args.View(), row0, Counted(|cells|)) && Spaced(cells, PTR_SIZE)
    requires i < |succ| && next == succ[i] < |cells| && Along(task, cells, succ) && OwnsCells(own, cells)
    requires LongSoFar(args.View(), row0, nrIteration, was, args.arena.View(), cells, succ, own, task, i)
    modifies args.arena.bytes
    ensures OnlyRowsChanged(args.View(), row0, nrIteration, was, args.arena.View())
    ensures !ok ==> !Blank(was, cells) && Builds(own, task, Threading(0), was, Aborted, args.arena.View())
    ensures ok ==> LongSoFar(args.View(), row0, nrIteration, was, args.arena.View(), cells, succ, own, task, i + 1)
  {
    var cell := CellOf(args, row0, nrIteration, nrElts, i);
    var target := CellOf(args, row0, nrIteration, nrElts, next);
    ghost var before := args.arena.View();
    ok := StoreLink(args.arena, cell, target, was, cells, succ, i);
    if ok {
      StoreInRows(args, was, before, args.arena.View(), row0, nrIteration, i);
      DidLink(own, task, was, i, before, args.arena.View());
    } else {
      LinkAborts(own, task, was, i, before);
    }
  }

  /** One round of the loop: test that the cell is NULL, then store its successor's address. */
  method StoreLink(arena: Arena, cell: nat, target: nat,
                   ghost was: Memory, ghost cells: seq<nat>, ghost succ: seq<nat>, ghost i: nat) returns (ok: bool)
    requires arena.Valid() && i < |cells| && PartlyThreaded(was, arena.View(), cells, succ, i)
             && BlankBelow(was, cells, i)
    requires cell == cells[i] && target == cells[succ[i]] < ADDRESS_LIMIT && Spaced(cells, PTR_SIZE)
             && arena.View().Has(cell, PTR_SIZE)
    modifies arena.bytes
    ensures !ok ==> !Blank(was, cells) && arena.View() == old(arena.View()) && arena.View().Load(cell) != 0
    ensures ok ==> PartlyThreaded(was, arena.View(), cells, succ, i + 1) && BlankBelow(was, cells, i + 1)
    ensures ok ==> arena.View().SameOutside(old(arena.View()), cell, PTR_SIZE) && old(arena.View()).Load(cell) == 0
    ensures ok ==> Stored(old(arena.View()), arena.View(), cell, ToBytes(target, PTR_SIZE))
  {
    BlankSoFar(was, arena.View(), cells, succ, i);
    var content := arena.Load(cell);
    if content != 0 {
      return false;
    }
    arena.Store(cell, target);
    OneMoreThreaded(was, old(arena.View()), arena.View(), cells, succ, i);
    return true;
  }

  ghost predicate BlankBelow(m: Memory, cells: seq<nat>, i: nat)
    requires i <= |cells|
  {
    forall v | 0 <= v < i :: m.Has(cells[v], PTR_SIZE) && m.Load(cells[v]) == 0
  }

  /** The test of cell i sees what the cell held at the start. */
  lemma BlankSoFar(was: Memory, m: Memory, cells: seq<nat>, succ: seq<nat>, i: nat)
    requires PartlyThreaded(was, m, cells, succ, i) && i < |cells| && BlankBelow(was, cells, i)
    ensures m.Load(cells[i]) == 0 <==> BlankBelow(was, cells, i + 1)
    ensures m.Load(cells[i]) != 0 ==> !Blank(was, cells)
  {}

  /** MIXED_2(v % nr_elts, v / nr_elts, nr_mixers) */
  method CellOf(args: ChaseArgs, row0: nat, nrIteration: nat, nrElts: nat, v: nat) returns (cell: nat)
    requires LongReady(args, row0, nrIteration) && nrElts == args.View().NrElts() && v < nrIteration * nrElts
    ensures cell == LongCell(args.View(), row0, v)
    ensures args.arena.View().Has(cell, PTR_SIZE) && cell < ADDRESS_LIMIT
  {
    DivBelow(v, 0, nrElts);
    LongCellInArena(args, row0, nrIteration, v);
    cell := args.View().Cell(row0 + v / nrElts, v % nrElts);
  }

  /** The value whose cell the cell of value i shall point to. */
  method LongTarget(nrElts: nat, nrIteration: nat, perm: array<nat>, permInverse: array<nat>, i: nat)
    returns (target: nat)
    requires LongPerm(perm[..], permInverse[..], nrElts, nrIteration) && i < perm.Length
    ensures target == LongSuccessors(perm[..], permInverse[..], nrElts, nrIteration)[i] < perm.Length
  {
    SuccessorsInRange(perm[..], permInverse[..], nrElts, nrIteration);
    LongNextDefined(perm[..], permInverse[..], nrElts, nrIteration, i);
    var next := permInverse[i] + 1;
    next := if next % nrElts == 0 && next / nrElts > i / nrElts then i / nrElts * nrElts else next;
    if perm[next] % nrElts == 0 {
      var first := (i / nrElts + 1) * nrElts;
      target := if first == nrIteration * nrElts then 0 else first;
    } else {
      target := perm[next];
    }
  }

  lemma SuccessorsInRange(perm: seq<nat>, inverse: seq<nat>, n: nat, iterations: nat)
    requires LongPerm(perm, inverse, n, iterations)
    ensures forall v | 0 <= v < |perm| :: LongSuccessors(perm, inverse, n, iterations)[v] < |perm|
  {
    forall v | 0 <= v < |perm|
      ensures LongNext(perm, inverse, n, iterations, v) < |perm|
    {
      LongNextDefined(perm, inverse, n, iterations, v);
      NextBlock(n, iterations, v / n);
      BlockIndex(Next(v / n, iterations), 0, iterations, n);
    }
  }
}
