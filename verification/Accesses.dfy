/** Programs of single memory accesses. A thread is a local state; the state says which access
    comes next, and how the thread goes on with what it has read. */
module Accesses {
  import opened Memory

  datatype Access = Skip | Read(p: nat, n: nat) | Write(p: nat, bytes: seq<byte>) | Halt

  datatype Program<!L> = Program(next: L -> Access, resume: (L, seq<byte>) -> L)

  /** One access; nothing happens after the thread has halted. */
  function Perform<L>(prog: Program<L>, l: L, m: Memory): (L, Memory) {
    match prog.next(l)
    case Skip => (prog.resume(l, []), m)
    case Read(p, n) => if m.Has(p, n) then (prog.resume(l, m.Slice(p, n)), m) else (l, m)
    case Write(p, bytes) => if m.Has(p, |bytes|) then (prog.resume(l, []), m.Written(p, bytes)) else (l, m)
    case Halt => (l, m)
  }

  ghost predicate Covered(own: set<nat>, p: nat, n: nat) {
    forall a | p <= a < p + n :: a in own
  }

  /** The access touches only addresses in `own`. */
  ghost predicate Allowed(own: set<nat>, access: Access) {
    match access
    case Skip => true
    case Read(p, n) => Covered(own, p, n)
    case Write(p, bytes) => Covered(own, p, |bytes|)
    case Halt => true
  }

  /** The thread on its own. */
  function Alone<L>(prog: Program<L>, l: L, m: Memory, steps: nat): (L, Memory) {
    if steps == 0 then (l, m)
    else var (l', m') := Alone(prog, l, m, steps - 1); Perform(prog, l', m')
  }

  ghost predicate Obeys<L>(prog: Program<L>, own: set<nat>, l: L, m: Memory, steps: nat) {
    forall j: nat | j < steps :: Allowed(own, prog.next(Alone(prog, l, m, j).0))
  }

  /** On its own, the thread gets from (l, m) to (l', m'), touching only addresses in `own`. */
  ghost predicate Reaches<L(!new)>(prog: Program<L>, own: set<nat>, l: L, m: Memory, l': L, m': Memory) {
    exists k: nat :: Alone(prog, l, m, k) == (l', m') && Obeys(prog, own, l, m, k)
  }

  lemma ReachesSelf<L(!new)>(prog: Program<L>, own: set<nat>, l: L, m: Memory)
    ensures Reaches(prog, own, l, m, l, m)
  {
    assert Alone(prog, l, m, 0) == (l, m) && Obeys(prog, own, l, m, 0);
  }

  lemma ReachesMore<L(!new)>(prog: Program<L>, own: set<nat>, l: L, m: Memory, l1: L, m1: Memory)
    requires Reaches(prog, own, l, m, l1, m1) && Allowed(own, prog.next(l1))
    ensures var (l2, m2) := Perform(prog, l1, m1); Reaches(prog, own, l, m, l2, m2)
  {
    var k: nat :| Alone(prog, l, m, k) == (l1, m1) && Obeys(prog, own, l, m, k);
    assert Alone(prog, l, m, k + 1) == Perform(prog, l1, m1);
    assert Obeys(prog, own, l, m, k + 1);
  }

  lemma {:induction false} AloneSum<L>(prog: Program<L>, l: L, m: Memory, j: nat, k: nat)
    ensures Alone(prog, l, m, j + k) == Alone(prog, Alone(prog, l, m, j).0, Alone(prog, l, m, j).1, k)
  {
    if k != 0 {
      AloneSum(prog, l, m, j, k - 1);
      assert j + k - 1 == j + (k - 1);
    }
  }

  lemma ReachesTrans<L(!new)>(prog: Program<L>, own: set<nat>, l: L, m: Memory, l1: L, m1: Memory, l2: L, m2: Memory)
    requires Reaches(prog, own, l, m, l1, m1) && Reaches(prog, own, l1, m1, l2, m2)
    ensures Reaches(prog, own, l, m, l2, m2)
  {
    var j: nat :| Alone(prog, l, m, j) == (l1, m1) && Obeys(prog, own, l, m, j);
    var k: nat :| Alone(prog, l1, m1, k) == (l2, m2) && Obeys(prog, own, l1, m1, k);
    AloneSum(prog, l, m, j, k);
    forall i: nat | i < j + k
      ensures Allowed(own, prog.next(Alone(prog, l, m, i).0))
    {
      if j <= i {
        AloneSum(prog, l, m, j, i - j);
        assert Allowed(own, prog.next(Alone(prog, l1, m1, i - j).0));
      }
    }
    assert Obeys(prog, own, l, m, j + k);
  }
}
