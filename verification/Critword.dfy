/** The critical-word rewrites of a finished chase (multichase/multichase.c, thread_start):
    each overwrites the ring while walking along it. */
module Critword {
  import opened Wrappers
  import opened Numbers
  import opened Memory
  import opened Overlap
  import opened Accesses
  import opened Builder
  import opened Permutations
  import opened Chase

  /** Two pointer cells that do not overlap. */
  predicate Apart(a: nat, b: nat) {
    a + PTR_SIZE <= b || b + PTR_SIZE <= a
  }

  /** No word of an object, at its cell or `offset` bytes behind it, overlaps a word of another object.
      The two words of one object may overlap, and do for offsets below 8. */
  ghost predicate OthersApart(ring: seq<nat>, offset: nat) {
    Spaced(ring, PTR_SIZE)
    && forall i, j | 0 <= i < |ring| && 0 <= j < |ring| && i != j :: Apart(ring[i], ring[j] + offset)
  }

  /** A ring with a second word behind each of its cells. */
  ghost predicate TwoWords(m: Memory, ring: seq<nat>, offset: nat) {
    IsRing(m, ring) && OthersApart(ring, offset)
    && forall i | 0 <= i < |ring| :: m.Has(ring[i] + offset, PTR_SIZE)
  }

  ghost predicate OwnsWords(own: set<nat>, ring: seq<nat>, offset: nat) {
    forall i | 0 <= i < |ring| :: Covered(own, ring[i], PTR_SIZE) && Covered(own, ring[i] + offset, PTR_SIZE)
  }

  /** Inside objects that do not overlap, every offset up to 8 bytes before the end will do. */
  lemma ObjectsHaveRoom(m: Memory, ring: seq<nat>, size: nat, offset: nat)
    requires IsRing(m, ring) && Spaced(ring, size) && offset + PTR_SIZE <= size
    requires forall i | 0 <= i < |ring| :: m.Has(ring[i], size)
    ensures TwoWords(m, ring, offset)
  {
    forall i, j | 0 <= i < |ring| && 0 <= j < |ring| && i != j
      ensures Apart(ring[i], ring[j] + offset)
    {
      assert i < j || j < i;
    }
  }

  ghost function Shifted(ring: seq<nat>, offset: nat): (r: seq<nat>)
    ensures |r| == |ring| && forall i | 0 <= i < |ring| :: r[i] == ring[i] + offset
  {
    seq(|ring|, i requires 0 <= i < |ring| => ring[i] + offset)
  }

  /** p0, p0+offset, p1, p1+offset, ... */
  ghost function Alternating(ring: seq<nat>, offset: nat): (r: seq<nat>)
    ensures |r| == 2 * |ring|
    ensures forall t | 0 <= t < 2 * |ring| :: r[t] == if t % 2 == 0 then ring[t / 2] else ring[t / 2] + offset
  {
    seq(2 * |ring|, (t: nat) requires t < 2 * |ring| => if t % 2 == 0 then ring[t / 2] else ring[t / 2] + offset)
  }

  /** The two memories differ at most in the cells of the ring and in their second words. */
  ghost predicate OnlyWordsChanged(m: Memory, w: Memory, ring: seq<nat>, offset: nat) {
    w.base == m.base && |w.bytes| == |m.bytes|
    && forall a: nat | m.Has(a, 1) && OutsideObjects(ring, PTR_SIZE, a)
                       && OutsideObjects(Shifted(ring, offset), PTR_SIZE, a) ::
         w.Byte(a) == m.Byte(a)
  }

  lemma WordStored(was: Memory, m: Memory, w: Memory, ring: seq<nat>, offset: nat, i: nat, p: nat)
    requires OnlyWordsChanged(was, m, ring, offset) && i < |ring| && (p == ring[i] || p == ring[i] + offset)
    requires w.SameOutside(m, p, PTR_SIZE)
    ensures OnlyWordsChanged(was, w, ring, offset)
  {
    forall a: nat | was.Has(a, 1) && OutsideObjects(ring, PTR_SIZE, a)
                    && OutsideObjects(Shifted(ring, offset), PTR_SIZE, a)
      ensures w.Byte(a) == was.Byte(a)
    {
      assert a < ring[i] || ring[i] + PTR_SIZE <= a;
      assert a < Shifted(ring, offset)[i] || Shifted(ring, offset)[i] + PTR_SIZE <= a;
      assert w.Byte(a) == m.Byte(a);
    }
  }

  /** A store to one cell keeps every cell that does not overlap it. */
  lemma OtherCellKept(m: Memory, w: Memory, p: nat, q: nat)
    requires w.SameOutside(m, p, PTR_SIZE) && m.Has(q, PTR_SIZE) && Apart(p, q)
    ensures w.Load(q) == m.Load(q)
  {
    LoadFrame(m, w, q);
  }

  lemma CellsOfOthers(ring: seq<nat>, offset: nat, i: nat, k: nat)
    requires OthersApart(ring, offset) && i < |ring| && k < |ring| && i != k
    ensures Apart(ring[i], ring[k]) && Apart(ring[i] + offset, ring[k] + offset)
    ensures Apart(ring[i], ring[k] + offset) && Apart(ring[i] + offset, ring[k])
  {
    assert i < k || k < i;
    assert Apart(ring[k], ring[i] + offset);
  }

  /** The walk is back at the head exactly after the last cell. */
  lemma RingEnds(ring: seq<nat>, i: nat)
    requires Distinct(ring) && i < |ring|
    ensures ring[Next(i, |ring|)] == ring[0] <==> i + 1 == |ring|
  {
    assert i + 1 < |ring| ==> ring[0] != ring[i + 1];
  }

  // ----- critword2

  /** The cell of an object whose successor is `next`, after the copy: below offset 8, the second
      word covers its high bytes. */
  function CopiedPointer(next: nat, offset: nat): nat {
    if PTR_SIZE <= offset then next else LowBytes(next, next + offset, offset)
  }

  /** The high bytes of next are the low bytes of next + offset, so that covering them does no harm. */
  predicate KeepsPointer(next: nat, offset: nat) {
    PTR_SIZE <= offset || next / Pow256(offset) == (next + offset) % Pow256(PTR_SIZE - offset)
  }

  ghost predicate PointersKept(ring: seq<nat>, offset: nat) {
    forall k | 0 <= k < |ring| :: KeepsPointer(ring[k], offset)
  }

  /** If k < i, the second word of object k links to the next second word. Its cell is linked as
      before, as far as the second word does not cover it. */
  ghost predicate Copy(m: Memory, ring: seq<nat>, offset: nat, k: nat, i: nat)
    requires k < |ring|
  {
    m.Has(ring[k], PTR_SIZE) && m.Has(ring[k] + offset, PTR_SIZE)
    && var next := ring[Next(k, |ring|)];
       if k < i then m.Load(ring[k]) == CopiedPointer(next, offset) && m.Load(ring[k] + offset) == next + offset
       else m.Load(ring[k]) == next
  }

  ghost predicate CopiedSoFar(m: Memory, ring: seq<nat>, offset: nat, i: nat) {
    forall k | 0 <= k < |ring| :: Copy(m, ring, offset, k, i)
  }

  lemma CopiedOneMore(m: Memory, w: Memory, ring: seq<nat>, offset: nat, i: nat)
    requires OthersApart(ring, offset) && i < |ring| && CopiedSoFar(m, ring, offset, i)
    requires m.Has(ring[i], PTR_SIZE) && m.Has(ring[i] + offset, PTR_SIZE)
    requires w.SameOutside(m, ring[i] + offset, PTR_SIZE)
    requires w.Load(ring[i]) == CopiedPointer(ring[Next(i, |ring|)], offset)
    requires w.Load(ring[i] + offset) == ring[Next(i, |ring|)] + offset
    ensures CopiedSoFar(w, ring, offset, i + 1)
  {
    var i' := i + 1;
    forall k | 0 <= k < |ring|
      ensures Copy(w, ring, offset, k, i')
    {
      assert Copy(m, ring, offset, k, i);
      if k != i {
        CellsOfOthers(ring, offset, i, k);
        OtherCellKept(m, w, ring[i] + offset, ring[k]);
        OtherCellKept(m, w, ring[i] + offset, ring[k] + offset);
      }
    }
  }

  /** One object: what the store of its second word leaves in its cell. */
  lemma CopiedCell(m: Memory, w: Memory, p: nat, offset: nat, next: nat)
    requires m.Has(p, PTR_SIZE) && m.Load(p) == next
    requires Stored(m, w, p + offset, ToBytes(next + offset, PTR_SIZE))
    ensures w.Load(p) == CopiedPointer(next, offset)
  {
    if PTR_SIZE <= offset {
      OtherCellKept(m, w, p + offset, p);
    } else {
      OverwrittenBack(m, w, p, offset, next, next + offset);
    }
  }

  /** Where the program of the walk is in front of object i. */
  function CopyAt(ring: seq<nat>, i: nat): Pc {
    if i < |ring| then CopyReading(ring[i]) else TaskDone
  }

  /** The state of the walk in front of object i. */
  ghost predicate Copying(was: Memory, m: Memory, ring: seq<nat>, offset: nat, i: nat, own: set<nat>, task: Task) {
    CopiedSoFar(m, ring, offset, i) && OnlyWordsChanged(was, m, ring, offset)
    && Builds(own, task, CopyAt(ring, 0), was, CopyAt(ring, i), m)
  }

  /** critword2: beside the chase, a second one through the words at `offset`. The chase itself stays
      a ring exactly if the second words do not change its pointers. */
  method Critword2(arena: Arena, head: nat, offset: nat, ghost ring: seq<nat>, ghost own: set<nat>, ghost task: Task)
    requires arena.Valid() && TwoWords(arena.View(), ring, offset) && head == ring[0]
    requires OwnsWords(own, ring, offset) && task.rewrite == ToCritword2(offset) && task.head == head
    modifies arena.bytes
    ensures IsRing(arena.View(), Shifted(ring, offset))
    ensures IsRing(arena.View(), ring) <==> PointersKept(ring, offset)
    ensures PTR_SIZE <= offset ==>
              forall i, j | 0 <= i < |ring| && 0 <= j < |ring| :: Apart(ring[i], Shifted(ring, offset)[j])
    ensures OnlyWordsChanged(old(arena.View()), arena.View(), ring, offset)
    ensures Builds(own, task, Rewriting(task), old(arena.View()), TaskDone, arena.View())
  {
    var p := head;
    var done := false;
    ghost var i, was := 0, arena.View();
    BuildsNothing(own, task, CopyAt(ring, 0), was);
    while !done
      invariant 0 <= i <= |ring| && (done <==> i == |ring|)
      invariant !done ==> p == ring[i]
      invariant Copying(was, arena.View(), ring, offset, i, own, task)
      decreases |ring| - i
    {
      p := CopyOne(arena, p, offset, was, ring, i, own, task);
      i := i + 1;
      done := p == head;
      assert i < |ring| ==> ring[0] != ring[i];
    }
    CopiedRing(arena.View(), ring, offset);
  }

  /** One round of the walk: write the second word of object i. */
  method CopyOne(arena: Arena, p: nat, offset: nat, ghost was: Memory, ghost ring: seq<nat>, ghost i: nat,
                 ghost own: set<nat>, ghost task: Task) returns (next: nat)
    requires arena.Valid() && OthersApart(ring, offset) && Distinct(ring) && i < |ring| && p == ring[i]
    requires OwnsWords(own, ring, offset) && task.rewrite == ToCritword2(offset) && task.head == ring[0]
    requires Copying(was, arena.View(), ring, offset, i, own, task)
    modifies arena.bytes
    ensures next == ring[Next(i, |ring|)]
    ensures Copying(was, arena.View(), ring, offset, i + 1, own, task)
  {
    ghost var m := arena.View();
    CopyFacts(m, ring, offset, i);
    next := CopyObject(arena, p, offset);
    CopyStep(was, m, arena.View(), ring, offset, i, p, next, own, task);
  }

  /** The load and the store of a round. */
  method CopyObject(arena: Arena, p: nat, offset: nat) returns (next: nat)
    requires arena.Valid() && arena.View().Has(p, PTR_SIZE) && arena.View().Has(p + offset, PTR_SIZE)
    requires arena.View().Load(p) + offset < ADDRESS_LIMIT
    modifies arena.bytes
    ensures next == old(arena.View()).Load(p) && arena.View().Load(p + offset) == next + offset
    ensures Stored(old(arena.View()), arena.View(), p + offset, ToBytes(next + offset, PTR_SIZE))
  {
    next := arena.Load(p);
    arena.Store(p + offset, next + offset);
  }

  lemma CopyFacts(m: Memory, ring: seq<nat>, offset: nat, i: nat)
    requires i < |ring| && CopiedSoFar(m, ring, offset, i)
    ensures m.Has(ring[i], PTR_SIZE) && m.Has(ring[i] + offset, PTR_SIZE)
    ensures m.Has(ring[Next(i, |ring|)] + offset, PTR_SIZE) && m.Load(ring[i]) == ring[Next(i, |ring|)]
  {
    assert Copy(m, ring, offset, i, i) && Copy(m, ring, offset, Next(i, |ring|), i);
  }

  lemma CopyStep(was: Memory, m: Memory, w: Memory, ring: seq<nat>, offset: nat, i: nat, p: nat, next: nat,
                 own: set<nat>, task: Task)
    requires i < |ring| && OthersApart(ring, offset) && Distinct(ring) && OwnsWords(own, ring, offset)
    requires task.rewrite == ToCritword2(offset) && task.head == ring[0]
    requires p == ring[i] && next == ring[Next(i, |ring|)] && Copying(was, m, ring, offset, i, own, task)
    requires Stored(m, w, p + offset, ToBytes(next + offset, PTR_SIZE)) && w.Load(p + offset) == next + offset
    ensures Copying(was, w, ring, offset, i + 1, own, task)
  {
    assert Copy(m, ring, offset, i, i);
    CopiedCell(m, w, p, offset, next);
    CopiedOneMore(m, w, ring, offset, i);
    WordStored(was, m, w, ring, offset, i, p + offset);
    DidCopy(own, task, was, m, w, ring, offset, i);
  }

  /** The same round as two accesses of the program. */
  lemma DidCopy(own: set<nat>, task: Task, was: Memory, m: Memory, w: Memory, ring: seq<nat>, offset: nat, i: nat)
    requires i < |ring| && Distinct(ring) && Covered(own, ring[i], PTR_SIZE) && Covered(own, ring[i] + offset, PTR_SIZE)
    requires task.rewrite == ToCritword2(offset) && task.head == ring[0]
    requires Builds(own, task, CopyAt(ring, 0), was, CopyAt(ring, i), m)
    requires m.Has(ring[i], PTR_SIZE) && m.Load(ring[i]) == ring[Next(i, |ring|)]
    requires Stored(m, w, ring[i] + offset, ToBytes(ring[Next(i, |ring|)] + offset, PTR_SIZE))
    ensures Builds(own, task, CopyAt(ring, 0), was, CopyAt(ring, i + 1), w)
  {
    RingEnds(ring, i);
    DidCopyWord(own, task, CopyAt(ring, 0), was, m, w, ring[i], ring[Next(i, |ring|)], offset);
  }

  lemma CopiedRing(m: Memory, ring: seq<nat>, offset: nat)
    requires |ring| > 0 && Distinct(ring) && CopiedSoFar(m, ring, offset, |ring|)
    ensures IsRing(m, Shifted(ring, offset))
    ensures IsRing(m, ring) <==> PointersKept(ring, offset)
  {
    var r, n := Shifted(ring, offset), |ring|;
    forall k | 0 <= k < n
      ensures m.Has(r[k], PTR_SIZE) && m.Load(r[k]) == r[Next(k, n)]
      ensures m.Has(ring[k], PTR_SIZE)
      ensures m.Load(ring[k]) == ring[Next(k, n)] <==> KeepsPointer(ring[Next(k, n)], offset)
    {
      assert Copy(m, ring, offset, k, n);
      PointerIntact(ring[Next(k, n)], offset);
    }
    if IsRing(m, ring) {
      forall k | 0 <= k < n
        ensures KeepsPointer(ring[k], offset)
      {
        var before := if k == 0 then n - 1 else k - 1;
        assert Next(before, n) == k && m.Load(ring[before]) == ring[k];
      }
    }
  }

  lemma PointerIntact(next: nat, offset: nat)
    ensures CopiedPointer(next, offset) == next <==> KeepsPointer(next, offset)
  {
    if offset < PTR_SIZE {
      LowBytesIntact(next, next + offset, offset);
    }
  }

  // ----- critword

  /** The second word of the object at p whose successor is `next`, after the split: below offset 8,
      the pointer to the second word covers its low bytes. */
  function SplitWord(p: nat, next: nat, offset: nat): nat {
    if PTR_SIZE <= offset then next else HighBytes(p + offset, next, offset)
  }

  /** The low bytes of next are the high bytes of p + offset, so that covering them does no harm. */
  predicate KeepsWord(p: nat, next: nat, offset: nat) {
    PTR_SIZE <= offset || next % Pow256(PTR_SIZE - offset) == (p + offset) / Pow256(offset)
  }

  /** If k < i, object k leads to its second word and, as far as that is not covered, from there to
      the next object; otherwise it leads on as before. */
  ghost predicate Split(m: Memory, ring: seq<nat>, offset: nat, k: nat, i: nat)
    requires k < |ring|
  {
    m.Has(ring[k], PTR_SIZE) && m.Has(ring[k] + offset, PTR_SIZE)
    && var next := ring[Next(k, |ring|)];
       if k < i then
         m.Load(ring[k]) == ring[k] + offset && m.Load(ring[k] + offset) == SplitWord(ring[k], next, offset)
       else m.Load(ring[k]) == next
  }

  ghost predicate SplitSoFar(m: Memory, ring: seq<nat>, offset: nat, i: nat) {
    forall k | 0 <= k < |ring| :: Split(m, ring, offset, k, i)
  }

  lemma SplitOneMore(m: Memory, v: Memory, w: Memory, ring: seq<nat>, offset: nat, i: nat)
    requires OthersApart(ring, offset) && i < |ring| && SplitSoFar(m, ring, offset, i)
    requires m.Has(ring[i], PTR_SIZE) && m.Has(ring[i] + offset, PTR_SIZE)
    requires v.SameOutside(m, ring[i] + offset, PTR_SIZE) && w.SameOutside(v, ring[i], PTR_SIZE)
    requires w.Load(ring[i]) == ring[i] + offset
    requires w.Load(ring[i] + offset) == SplitWord(ring[i], ring[Next(i, |ring|)], offset)
    ensures SplitSoFar(w, ring, offset, i + 1)
  {
    var i' := i + 1;
    forall k | 0 <= k < |ring|
      ensures Split(w, ring, offset, k, i')
    {
      assert Split(m, ring, offset, k, i);
      if k != i {
        SplitOther(m, v, w, ring, offset, i, k);
      }
    }
  }

  /** One object: what the two stores leave in its second word. */
  lemma SplitSecond(m: Memory, v: Memory, w: Memory, p: nat, offset: nat, next: nat)
    requires p + offset < ADDRESS_LIMIT && next < ADDRESS_LIMIT
    requires Stored(m, v, p + offset, ToBytes(next, PTR_SIZE)) && v.Load(p + offset) == next
    requires Stored(v, w, p, ToBytes(p + offset, PTR_SIZE))
    ensures w.Load(p + offset) == SplitWord(p, next, offset)
  {
    if PTR_SIZE <= offset {
      OtherCellKept(v, w, p, p + offset);
    } else {
      OverwrittenFront(m, v, w, p, offset, p + offset, next);
    }
  }

  lemma SplitOther(m: Memory, v: Memory, w: Memory, ring: seq<nat>, offset: nat, i: nat, k: nat)
    requires OthersApart(ring, offset) && i < |ring| && k < |ring| && i != k
    requires m.Has(ring[k], PTR_SIZE) && m.Has(ring[k] + offset, PTR_SIZE)
    requires v.SameOutside(m, ring[i] + offset, PTR_SIZE) && w.SameOutside(v, ring[i], PTR_SIZE)
    ensures w.Load(ring[k]) == m.Load(ring[k]) && w.Load(ring[k] + offset) == m.Load(ring[k] + offset)
  {
    CellsOfOthers(ring, offset, i, k);
    OtherCellKept(m, v, ring[i] + offset, ring[k]);
    OtherCellKept(m, v, ring[i] + offset, ring[k] + offset);
    OtherCellKept(v, w, ring[i], ring[k]);
    OtherCellKept(v, w, ring[i], ring[k] + offset);
  }

  /** Every second word still leads to the next object. */
  ghost predicate WordsKept(ring: seq<nat>, offset: nat) {
    forall k | 0 <= k < |ring| :: KeepsWord(ring[k], ring[Next(k, |ring|)], offset)
  }

  lemma SplitRing(m: Memory, ring: seq<nat>, offset: nat)
    requires |ring| > 0 && OthersApart(ring, offset) && SplitSoFar(m, ring, offset, |ring|)
    ensures IsRing(m, Alternating(ring, offset)) <==> 0 < offset && WordsKept(ring, offset)
  {
    if IsRing(m, Alternating(ring, offset)) {
      SplitNeedsWords(m, ring, offset);
    }
    if 0 < offset && WordsKept(ring, offset) {
      SplitWithWords(m, ring, offset);
    }
  }

  lemma SplitNeedsWords(m: Memory, ring: seq<nat>, offset: nat)
    requires |ring| > 0 && SplitSoFar(m, ring, offset, |ring|) && IsRing(m, Alternating(ring, offset))
    ensures 0 < offset && WordsKept(ring, offset)
  {
    var r := Alternating(ring, offset);
    assert r[0] != r[1];
    forall k | 0 <= k < |ring|
      ensures KeepsWord(ring[k], ring[Next(k, |ring|)], offset)
    {
      AlternatingStep(m, ring, offset, 2 * k + 1);
    }
  }

  lemma SplitWithWords(m: Memory, ring: seq<nat>, offset: nat)
    requires |ring| > 0 && OthersApart(ring, offset) && SplitSoFar(m, ring, offset, |ring|)
    requires 0 < offset && WordsKept(ring, offset)
    ensures IsRing(m, Alternating(ring, offset))
  {
    var r := Alternating(ring, offset);
    forall t | 0 <= t < |r|
      ensures m.Has(r[t], PTR_SIZE) && m.Load(r[t]) == r[Next(t, |r|)]
    {
      AlternatingStep(m, ring, offset, t);
    }
    AlternatingDistinct(ring, offset);
  }

  lemma AlternatingDistinct(ring: seq<nat>, offset: nat)
    requires OthersApart(ring, offset) && 0 < offset
    ensures Distinct(Alternating(ring, offset))
    ensures PTR_SIZE <= offset ==> Spaced(Alternating(ring, offset), PTR_SIZE)
  {
    var r := Alternating(ring, offset);
    forall t, u | 0 <= t < u < |r|
      ensures r[t] != r[u] && (PTR_SIZE <= offset ==> Apart(r[t], r[u]))
    {
      if t / 2 != u / 2 {
        CellsOfOthers(ring, offset, t / 2, u / 2);
      } else {
        assert r[t] == ring[t / 2] && r[u] == ring[t / 2] + offset;
      }
    }
  }

  lemma WordIntact(p: nat, next: nat, offset: nat)
    ensures SplitWord(p, next, offset) == next <==> KeepsWord(p, next, offset)
  {
    if offset < PTR_SIZE {
      HighBytesIntact(p + offset, next, offset);
    }
  }

  lemma AlternatingStep(m: Memory, ring: seq<nat>, offset: nat, t: nat)
    requires SplitSoFar(m, ring, offset, |ring|) && t < 2 * |ring|
    ensures var r := Alternating(ring, offset);
            m.Has(r[t], PTR_SIZE)
            && (m.Load(r[t]) == r[Next(t, |r|)] <==>
                t % 2 == 0 || KeepsWord(ring[t / 2], ring[Next(t / 2, |ring|)], offset))
  {
    var k := t / 2;
    assert Split(m, ring, offset, k, |ring|);
    AlternatingAt(ring, offset, k);
    AlternatingAt(ring, offset, Next(k, |ring|));
    WordIntact(ring[k], ring[Next(k, |ring|)], offset);
    assert Next(t, 2 * |ring|) == if t % 2 == 0 then 2 * k + 1 else 2 * Next(k, |ring|);
  }

  /** At offset 0 no memory whatsoever holds the new cycle: an object cannot lead to itself and on. */
  lemma ZeroOffsetNeverSplits(w: Memory, ring: seq<nat>)
    requires 0 < |ring|
    ensures !IsRing(w, Alternating(ring, 0))
  {
    var r := Alternating(ring, 0);
    assert r[0] == r[1];
  }

  /** Whether a smaller offset than 8 splits the chase depends on the addresses: 7 does for all steps
      to multiples of 256 and no others, while 4 fails for a step from 0x100 to 0x200. */
  lemma OffsetsBelowEight(p: nat, next: nat)
    requires p + 7 < Pow256(7)
    ensures KeepsWord(p, next, 7) <==> next % 256 == 0
    ensures !KeepsWord(0x100, 0x200, 4) && !KeepsPointer(0x100, 4)
  {
    DivBelow(p + 7, 1, Pow256(7));
    DivBelow(p + 7, 0, Pow256(7));
    assert Pow256(1) == 0x100 && Pow256(4) == 0x1_0000_0000;
  }

  function SplitAt(ring: seq<nat>, i: nat): Pc {
    if i < |ring| then SplitReading(ring[i]) else TaskDone
  }

  /** The state of the walk in front of object i. */
  ghost predicate Splitting(was: Memory, m: Memory, ring: seq<nat>, offset: nat, i: nat, own: set<nat>, task: Task) {
    SplitSoFar(m, ring, offset, i) && OnlyWordsChanged(was, m, ring, offset)
    && Builds(own, task, SplitAt(ring, 0), was, SplitAt(ring, i), m)
  }

  /** critword: one cycle of twice the length, through both words of every object, exactly if the
      words are different and the first does not change the second. */
  method CritwordSplit(arena: Arena, head: nat, offset: nat, ghost ring: seq<nat>, ghost own: set<nat>,
                       ghost task: Task)
    requires arena.Valid() && TwoWords(arena.View(), ring, offset) && head == ring[0]
    requires OwnsWords(own, ring, offset) && task.rewrite == ToCritword(offset) && task.head == head
    modifies arena.bytes
    ensures IsRing(arena.View(), Alternating(ring, offset)) <==> 0 < offset && WordsKept(ring, offset)
    ensures PTR_SIZE <= offset ==> Spaced(Alternating(ring, offset), PTR_SIZE)
    ensures OnlyWordsChanged(old(arena.View()), arena.View(), ring, offset)
    ensures Builds(own, task, Rewriting(task), old(arena.View()), TaskDone, arena.View())
  {
    var p := head;
    var done := false;
    ghost var i, was := 0, arena.View();
    BuildsNothing(own, task, SplitAt(ring, 0), was);
    while !done
      invariant 0 <= i <= |ring| && (done <==> i == |ring|)
      invariant !done ==> p == ring[i]
      invariant Splitting(was, arena.View(), ring, offset, i, own, task)
      decreases |ring| - i
    {
      p := SplitOne(arena, p, offset, was, ring, i, own, task);
      i := i + 1;
      done := p == head;
      assert i < |ring| ==> ring[0] != ring[i];
    }
    SplitRing(arena.View(), ring, offset);
    if PTR_SIZE <= offset {
      AlternatingDistinct(ring, offset);
    }
  }

  /** One round of the walk: lead object i through both its words. */
  method SplitOne(arena: Arena, p: nat, offset: nat, ghost was: Memory, ghost ring: seq<nat>, ghost i: nat,
                  ghost own: set<nat>, ghost task: Task) returns (next: nat)
    requires arena.Valid() && OthersApart(ring, offset) && Distinct(ring) && i < |ring| && p == ring[i]
    requires OwnsWords(own, ring, offset) && task.rewrite == ToCritword(offset) && task.head == ring[0]
    requires Splitting(was, arena.View(), ring, offset, i, own, task)
    modifies arena.bytes
    ensures next == ring[Next(i, |ring|)]
    ensures Splitting(was, arena.View(), ring, offset, i + 1, own, task)
  {
    ghost var m := arena.View();
    SplitFacts(m, ring, offset, i);
    ghost var between;
    next, between := SplitObject(arena, p, offset);
    SplitStep(was, m, between, arena.View(), ring, offset, i, p, next, own, task);
  }

  /** The load and the two stores of a round. */
  method SplitObject(arena: Arena, p: nat, offset: nat) returns (next: nat, ghost between: Memory)
    requires arena.Valid() && arena.View().Has(p, PTR_SIZE) && arena.View().Has(p + offset, PTR_SIZE)
    requires p + offset < ADDRESS_LIMIT && arena.View().Load(p) < ADDRESS_LIMIT
    modifies arena.bytes
    ensures next == old(arena.View()).Load(p)
    ensures Stored(old(arena.View()), between, p + offset, ToBytes(next, PTR_SIZE)) && between.Load(p + offset) == next
    ensures Stored(between, arena.View(), p, ToBytes(p + offset, PTR_SIZE)) && arena.View().Load(p) == p + offset
  {
    next := arena.Load(p);
    arena.Store(p + offset, next);
    between := arena.View();
    arena.Store(p, p + offset);
  }

  lemma SplitFacts(m: Memory, ring: seq<nat>, offset: nat, i: nat)
    requires i < |ring| && SplitSoFar(m, ring, offset, i)
    ensures m.Has(ring[i], PTR_SIZE) && m.Has(ring[i] + offset, PTR_SIZE) && m.Has(ring[Next(i, |ring|)], PTR_SIZE)
    ensures m.Load(ring[i]) == ring[Next(i, |ring|)]
  {
    assert Split(m, ring, offset, i, i) && Split(m, ring, offset, Next(i, |ring|), i);
  }

  lemma SplitStep(was: Memory, m: Memory, between: Memory, w: Memory, ring: seq<nat>, offset: nat, i: nat, p: nat,
                  next: nat, own: set<nat>, task: Task)
    requires i < |ring| && OthersApart(ring, offset) && Distinct(ring) && OwnsWords(own, ring, offset)
    requires task.rewrite == ToCritword(offset) && task.head == ring[0]
    requires p == ring[i] && next == ring[Next(i, |ring|)] && Splitting(was, m, ring, offset, i, own, task)
    requires p + offset < ADDRESS_LIMIT && next < ADDRESS_LIMIT
    requires Stored(m, between, p + offset, ToBytes(next, PTR_SIZE)) && between.Load(p + offset) == next
    requires Stored(between, w, p, ToBytes(p + offset, PTR_SIZE)) && w.Load(p) == p + offset
    ensures Splitting(was, w, ring, offset, i + 1, own, task)
  {
    SplitSecond(m, between, w, p, offset, next);
    SplitOneMore(m, between, w, ring, offset, i);
    WordsStored(was, m, between, w, ring, offset, i, p);
    assert Split(m, ring, offset, i, i);
    DidSplit(own, task, was, m, between, w, ring, offset, i);
  }

  lemma WordsStored(was: Memory, m: Memory, v: Memory, w: Memory, ring: seq<nat>, offset: nat, i: nat, p: nat)
    requires OnlyWordsChanged(was, m, ring, offset) && i < |ring| && p == ring[i]
    requires v.SameOutside(m, p + offset, PTR_SIZE) && w.SameOutside(v, p, PTR_SIZE)
    ensures OnlyWordsChanged(was, w, ring, offset)
  {
    WordStored(was, m, v, ring, offset, i, p + offset);
    WordStored(was, v, w, ring, offset, i, p);
  }

  /** The same round as three accesses of the program. */
  lemma DidSplit(own: set<nat>, task: Task, was: Memory, m: Memory, between: Memory, w: Memory, ring: seq<nat>,
                 offset: nat, i: nat)
    requires i < |ring| && Distinct(ring) && Covered(own, ring[i], PTR_SIZE) && Covered(own, ring[i] + offset, PTR_SIZE)
    requires task.rewrite == ToCritword(offset) && task.head == ring[0]
    requires Builds(own, task, SplitAt(ring, 0), was, SplitAt(ring, i), m)
    requires m.Has(ring[i], PTR_SIZE) && m.Load(ring[i]) == ring[Next(i, |ring|)]
    requires Stored(m, between, ring[i] + offset, ToBytes(ring[Next(i, |ring|)], PTR_SIZE))
    requires Stored(between, w, ring[i], ToBytes(ring[i] + offset, PTR_SIZE))
    ensures Builds(own, task, SplitAt(ring, 0), was, SplitAt(ring, i + 1), w)
  {
    RingEnds(ring, i);
    DidSplitWord(own, task, SplitAt(ring, 0), was, m, between, w, ring[i], ring[Next(i, |ring|)], offset);
  }

  /** Meaning of the split: after 2k loads the chase is where it was after k loads before, and
      the load after that reads the second word of the same object. */
  lemma SplitKeepsOrder(m: Memory, w: Memory, ring: seq<nat>, offset: nat, k: nat)
    requires IsRing(m, ring) && IsRing(w, Alternating(ring, offset))
    ensures 0 <= k % |ring| < |ring| && Follow(m, ring[0], k) == Some(ring[k % |ring|])
    ensures Follow(w, ring[0], 2 * k) == Follow(m, ring[0], k)
    ensures Follow(w, ring[0], 2 * k + 1) == Some(ring[k % |ring|] + offset)
  {
    FollowFromHead(m, ring, k);
    SplitFollow(w, ring, offset, k);
  }

  lemma SplitFollow(w: Memory, ring: seq<nat>, offset: nat, k: nat)
    requires 0 < |ring| && IsRing(w, Alternating(ring, offset))
    ensures 0 <= k % |ring| < |ring|
    ensures Follow(w, ring[0], 2 * k) == Some(ring[k % |ring|])
    ensures Follow(w, ring[0], 2 * k + 1) == Some(ring[k % |ring|] + offset)
  {
    var r, j := Alternating(ring, offset), k % |ring|;
    AlternatingAt(ring, offset, 0);
    AlternatingAt(ring, offset, j);
    DoubledModulo(k, |ring|);
    FollowFromHead(w, r, 2 * k);
    FollowFromHead(w, r, 2 * k + 1);
  }

  lemma AlternatingAt(ring: seq<nat>, offset: nat, j: nat)
    requires j < |ring|
    ensures Alternating(ring, offset)[2 * j] == ring[j] && Alternating(ring, offset)[2 * j + 1] == ring[j] + offset
  {}

  lemma DoubledModulo(k: nat, n: nat)
    requires 0 < n
    ensures (2 * k) % (2 * n) == 2 * (k % n) && (2 * k + 1) % (2 * n) == 2 * (k % n) + 1
  {
    var q, j := k / n, k % n;
    assert q * (2 * n) == 2 * (q * n);
    DivModUnique(2 * k, 2 * n, q, 2 * j);
    DivModUnique(2 * k + 1, 2 * n, q, 2 * j + 1);
  }

  /** Meaning of critword2: the second chase shadows the first, `offset` bytes higher. */
  lemma CopyShadows(m: Memory, ring: seq<nat>, offset: nat, k: nat)
    requires IsRing(m, ring) && IsRing(m, Shifted(ring, offset))
    ensures Follow(m, ring[0], k).Some?
    ensures Follow(m, ring[0] + offset, k) == Some(Follow(m, ring[0], k).value + offset)
  {
    var r, j := Shifted(ring, offset), k % |ring|;
    FollowFromHead(m, ring, k);
    FollowFromHead(m, r, k);
    assert r[0] == ring[0] + offset && r[j] == ring[j] + offset;
  }
}
