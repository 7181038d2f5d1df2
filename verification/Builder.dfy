/** A thread building its chases (multichase/multichase.c, thread_start), as a program of single
    accesses to the arena: the local state says which access comes next, and how the thread goes
    on with what it has read. The methods of the other modules are shown to be runs of it. */
module Builder {
  import opened Memory
  import opened Accesses
  import opened Encoding
  import opened ChunkSize

  /** What thread_start does to a finished chase, by the name of the chase. */
  datatype Rewrite = Keep | ToBranches(chunkSize: nat) | ToCritword(offset: nat) | ToCritword2(offset: nat)

  /** One chase: cell number i is to receive links[i]; `tested` if each cell is first checked to be
      NULL. All of this is computed from private memory. */
  datatype Task = Task(cells: seq<nat>, links: seq<nat>, tested: bool, head: nat, rewrite: Rewrite)

  /** The counters of the branch compiler. */
  datatype Counters = Counters(remain: nat, chunkCount: nat, chunksRemaining: nat)

  /** Where the thread is in the current chase. */
  datatype Pc =
    | Threading(i: nat)
    | Linking(i: nat)
    | CopyReading(p: nat)
    | CopyWriting(p: nat, next: nat)
    | SplitReading(p: nat)
    | SplitWriting(p: nat, next: nat)
    | SplitTurning(p: nat, next: nat)
    | MeasuringFirst
    | Measuring(next: nat, count: nat)
    | NodeStarting(p: nat, c: Counters)
    | NodeReading(p: nat, c: Counters)
    | NodeTesting(p: nat, next: nat, i: nat, c: Counters)
    | NodeWriting(p: nat, next: nat, i: nat, c: Counters)
    | TaskDone
    | Aborted

  /** The chases still to build, the first of them being under way. */
  datatype Local = Local(todo: seq<Task>, pc: Pc)

  // ----- the program

  function TaskAccess(t: Task, pc: Pc): Access {
    match pc
    case Threading(i) =>
      if i >= |t.cells| || i >= |t.links| then Skip
      else if t.tested then Read(t.cells[i], PTR_SIZE)
      else Write(t.cells[i], ToBytes(t.links[i], PTR_SIZE))
    case Linking(i) => if i < |t.cells| && i < |t.links| then Write(t.cells[i], ToBytes(t.links[i], PTR_SIZE)) else Halt
    case CopyReading(p) => Read(p, PTR_SIZE)
    case CopyWriting(p, next) =>
      if t.rewrite.ToCritword2? then Write(p + t.rewrite.offset, ToBytes(next + t.rewrite.offset, PTR_SIZE)) else Halt
    case SplitReading(p) => Read(p, PTR_SIZE)
    case SplitWriting(p, next) =>
      if t.rewrite.ToCritword? then Write(p + t.rewrite.offset, ToBytes(next, PTR_SIZE)) else Halt
    case SplitTurning(p, next) =>
      if t.rewrite.ToCritword? then Write(p, ToBytes(p + t.rewrite.offset, PTR_SIZE)) else Halt
    case MeasuringFirst => Read(t.head, PTR_SIZE)
    case Measuring(next, count) => if next == t.head then Skip else Read(next, PTR_SIZE)
    case NodeStarting(p, c) => Skip
    case NodeReading(p, c) => Read(p, PTR_SIZE)
    case NodeTesting(p, next, i, c) => if i < BR_CODE_LEN then Read(p + i, 1) else Skip
    case NodeWriting(p, next, i, c) =>
      var code := NodeCode(next, c.chunkCount == 1);
      if i < |code| then Write(p + i, [code[i]]) else Skip
    case TaskDone => Skip
    case Aborted => Halt
  }

  /** Where the rewrite of a threaded chase starts. */
  function Rewriting(t: Task): Pc {
    match t.rewrite
    case Keep => TaskDone
    case ToBranches(_) => MeasuringFirst
    case ToCritword(_) => SplitReading(t.head)
    case ToCritword2(_) => CopyReading(t.head)
  }

  /** The walk stops where it started. */
  function Onward(t: Task, next: nat, on: Pc): Pc {
    if next == t.head then TaskDone else on
  }

  function TakeNode(c: Counters): Counters {
    if c.remain == 0 || c.chunkCount == 0 then c
    else Counters(c.remain - 1, c.chunkCount - 1,
                  if c.chunkCount == 1 && 0 < c.chunksRemaining then c.chunksRemaining - 1 else c.chunksRemaining)
  }

  /** Where the thread goes after its access, given what it has read. */
  function TaskResume(t: Task, pc: Pc, input: seq<byte>): Pc {
    match pc
    case Threading(i) =>
      if i >= |t.cells| || i >= |t.links| then Rewriting(t)
      else if !t.tested then Threading(i + 1)
      else if FromBytes(input) != 0 then Aborted
      else Linking(i)
    case Linking(i) => Threading(i + 1)
    case CopyReading(p) => CopyWriting(p, FromBytes(input))
    case CopyWriting(p, next) => Onward(t, next, CopyReading(next))
    case SplitReading(p) => SplitWriting(p, FromBytes(input))
    case SplitWriting(p, next) => SplitTurning(p, next)
    case SplitTurning(p, next) => Onward(t, next, SplitReading(next))
    case MeasuringFirst => Measuring(FromBytes(input), 1)
    case Measuring(next, count) =>
      if next != t.head then Measuring(FromBytes(input), count + 1)
      else
        var size :=
          if t.rewrite.ToBranches? && 0 < t.rewrite.chunkSize then BaseChunkSize(count, t.rewrite.chunkSize) else 0;
        if size == 0 then Aborted else NodeStarting(t.head, Counters(count, 0, count / size))
    case NodeStarting(p, c) =>
      if c.chunkCount != 0 then NodeReading(p, c)
      else if c.chunksRemaining == 0 then Aborted
      else NodeReading(p, c.(chunkCount := c.remain / c.chunksRemaining))
    case NodeReading(p, c) => NodeTesting(p, FromBytes(input), PTR_SIZE, c)
    case NodeTesting(p, next, i, c) =>
      if i >= BR_CODE_LEN then NodeWriting(p, next, 0, c)
      else if input != [0] then Aborted
      else NodeTesting(p, next, i + 1, c)
    case NodeWriting(p, next, i, c) =>
      if i < |NodeCode(next, c.chunkCount == 1)| then NodeWriting(p, next, i + 1, c)
      else Onward(t, next, NodeStarting(next, TakeNode(c)))
    case TaskDone => TaskDone
    case Aborted => Aborted
  }

  function NextAccess(l: Local): Access {
    if l.todo == [] then Halt else TaskAccess(l.todo[0], l.pc)
  }

  function Resume(l: Local, input: seq<byte>): Local {
    if l.todo == [] then l
    else if l.pc.TaskDone? then Local(l.todo[1..], Threading(0))
    else l.(pc := TaskResume(l.todo[0], l.pc, input))
  }

  // ----- running it

  const BUILD: Program<Local> := Program(l => NextAccess(l), (l, input) => Resume(l, input))

  /** A local state with one chase. */
  function On(t: Task, pc: Pc): Local { Local([t], pc) }

  /** Alone with task t, the thread gets from `from` to `to`. */
  ghost predicate Builds(own: set<nat>, t: Task, from: Pc, m: Memory, to: Pc, w: Memory) {
    Reaches(BUILD, own, On(t, from), m, On(t, to), w)
  }

  lemma BuildsNothing(own: set<nat>, t: Task, pc: Pc, m: Memory)
    ensures Builds(own, t, pc, m, pc, m)
  {
    ReachesSelf(BUILD, own, On(t, pc), m);
  }

  lemma BuildsTrans(own: set<nat>, t: Task, pc: Pc, m: Memory, pc1: Pc, m1: Memory, pc2: Pc, m2: Memory)
    requires Builds(own, t, pc, m, pc1, m1) && Builds(own, t, pc1, m1, pc2, m2)
    ensures Builds(own, t, pc, m, pc2, m2)
  {
    ReachesTrans(BUILD, own, On(t, pc), m, On(t, pc1), m1, On(t, pc2), m2);
  }

  lemma DidSkip(own: set<nat>, t: Task, from: Pc, m: Memory, pc: Pc, m1: Memory)
    requires Builds(own, t, from, m, pc, m1) && !pc.TaskDone? && TaskAccess(t, pc) == Skip
    ensures Builds(own, t, from, m, TaskResume(t, pc, []), m1)
  {
    ReachesMore(BUILD, own, On(t, from), m, On(t, pc), m1);
  }

  lemma DidRead(own: set<nat>, t: Task, from: Pc, m: Memory, pc: Pc, m1: Memory, p: nat, n: nat)
    requires Builds(own, t, from, m, pc, m1) && !pc.TaskDone? && TaskAccess(t, pc) == Read(p, n)
    requires m1.Has(p, n) && Covered(own, p, n)
    ensures Builds(own, t, from, m, TaskResume(t, pc, m1.Slice(p, n)), m1)
  {
    ReachesMore(BUILD, own, On(t, from), m, On(t, pc), m1);
  }

  lemma DidWrite(own: set<nat>, t: Task, from: Pc, m: Memory, pc: Pc, m1: Memory, p: nat, bytes: seq<byte>, m2: Memory)
    requires Builds(own, t, from, m, pc, m1) && !pc.TaskDone? && TaskAccess(t, pc) == Write(p, bytes)
    requires Stored(m1, m2, p, bytes) && Covered(own, p, |bytes|)
    ensures Builds(own, t, from, m, TaskResume(t, pc, []), m2)
  {
    IsWritten(m1, m2, p, bytes);
    ReachesMore(BUILD, own, On(t, from), m, On(t, pc), m1);
  }

  ghost predicate OwnsCells(own: set<nat>, cells: seq<nat>) {
    forall i | 0 <= i < |cells| :: Covered(own, cells[i], PTR_SIZE)
  }

  /** One round of threading. */
  lemma DidLink(own: set<nat>, t: Task, m: Memory, i: nat, m1: Memory, m2: Memory)
    requires Builds(own, t, Threading(0), m, Threading(i), m1)
    requires i < |t.cells| == |t.links| && OwnsCells(own, t.cells)
             && Stored(m1, m2, t.cells[i], ToBytes(t.links[i], PTR_SIZE))
    requires t.tested ==> m1.Load(t.cells[i]) == 0
    ensures Builds(own, t, Threading(0), m, Threading(i + 1), m2)
  {
    if t.tested {
      DidRead(own, t, Threading(0), m, Threading(i), m1, t.cells[i], PTR_SIZE);
      DidWrite(own, t, Threading(0), m, Linking(i), m1, t.cells[i], ToBytes(t.links[i], PTR_SIZE), m2);
    } else {
      DidWrite(own, t, Threading(0), m, Threading(i), m1, t.cells[i], ToBytes(t.links[i], PTR_SIZE), m2);
    }
  }

  /** A cell that is not NULL ends the program where it is tested. */
  lemma LinkAborts(own: set<nat>, t: Task, m: Memory, i: nat, m1: Memory)
    requires Builds(own, t, Threading(0), m, Threading(i), m1)
    requires i < |t.cells| == |t.links| && OwnsCells(own, t.cells) && m1.Has(t.cells[i], PTR_SIZE)
    requires t.tested && m1.Load(t.cells[i]) != 0
    ensures Builds(own, t, Threading(0), m, Aborted, m1)
  {
    DidRead(own, t, Threading(0), m, Threading(i), m1, t.cells[i], PTR_SIZE);
  }

  /** One object of critword2: a load and a store. */
  lemma DidCopyWord(own: set<nat>, t: Task, from: Pc, m: Memory, m1: Memory, m2: Memory, p: nat, next: nat, offset: nat)
    requires Builds(own, t, from, m, CopyReading(p), m1) && t.rewrite == ToCritword2(offset)
    requires m1.Has(p, PTR_SIZE) && next == m1.Load(p) && Covered(own, p, PTR_SIZE)
             && Covered(own, p + offset, PTR_SIZE)
    requires Stored(m1, m2, p + offset, ToBytes(next + offset, PTR_SIZE))
    ensures Builds(own, t, from, m, Onward(t, next, CopyReading(next)), m2)
  {
    DidRead(own, t, from, m, CopyReading(p), m1, p, PTR_SIZE);
    DidWrite(own, t, from, m, CopyWriting(p, next), m1, p + offset, ToBytes(next + offset, PTR_SIZE), m2);
  }

  /** One object of critword: a load and two stores. */
  lemma DidSplitWord(own: set<nat>, t: Task, from: Pc, m: Memory, m1: Memory, m2: Memory, m3: Memory, p: nat, next: nat,
                     offset: nat)
    requires Builds(own, t, from, m, SplitReading(p), m1) && t.rewrite == ToCritword(offset)
    requires m1.Has(p, PTR_SIZE) && next == m1.Load(p) && Covered(own, p, PTR_SIZE)
             && Covered(own, p + offset, PTR_SIZE)
    requires Stored(m1, m2, p + offset, ToBytes(next, PTR_SIZE)) && Stored(m2, m3, p, ToBytes(p + offset, PTR_SIZE))
    ensures Builds(own, t, from, m, Onward(t, next, SplitReading(next)), m3)
  {
    DidRead(own, t, from, m, SplitReading(p), m1, p, PTR_SIZE);
    DidWrite(own, t, from, m, SplitWriting(p, next), m1, p + offset, ToBytes(next, PTR_SIZE), m2);
    DidWrite(own, t, from, m, SplitTurning(p, next), m2, p, ToBytes(p + offset, PTR_SIZE), m3);
  }

  /** The bytes behind the pointer of a node are tested one by one. */
  lemma {:induction false} DidTest(own: set<nat>, t: Task, from: Pc, m: Memory, m1: Memory, p: nat, next: nat, i: nat,
                                   c: Counters)
    requires Builds(own, t, from, m, NodeTesting(p, next, i, c), m1) && i <= BR_CODE_LEN
    requires m1.Has(p, BR_CODE_LEN) && Covered(own, p, BR_CODE_LEN)
    requires forall a | p + i <= a < p + BR_CODE_LEN :: m1.Byte(a) == 0
    ensures Builds(own, t, from, m, NodeWriting(p, next, 0, c), m1)
    decreases BR_CODE_LEN - i
  {
    if i == BR_CODE_LEN {
      DidSkip(own, t, from, m, NodeTesting(p, next, i, c), m1);
    } else {
      assert m1.Slice(p + i, 1) == [m1.Byte(p + i)];
      DidRead(own, t, from, m, NodeTesting(p, next, i, c), m1, p + i, 1);
      DidTest(own, t, from, m, m1, p, next, i + 1, c);
    }
  }

  /** A byte that is not zero ends the program. */
  lemma {:induction false} TestAborts(own: set<nat>, t: Task, from: Pc, m: Memory, m1: Memory, p: nat, next: nat,
                                      i: nat, c: Counters, a: nat)
    requires Builds(own, t, from, m, NodeTesting(p, next, i, c), m1)
    requires m1.Has(p, BR_CODE_LEN) && Covered(own, p, BR_CODE_LEN)
    requires p + i <= a < p + BR_CODE_LEN && m1.Byte(a) != 0
    ensures Builds(own, t, from, m, Aborted, m1)
    decreases BR_CODE_LEN - i
  {
    assert m1.Slice(p + i, 1) == [m1.Byte(p + i)];
    DidRead(own, t, from, m, NodeTesting(p, next, i, c), m1, p + i, 1);
    if m1.Byte(p + i) == 0 {
      TestAborts(own, t, from, m, m1, p, next, i + 1, c, a);
    }
  }

  /** A node without room ends the program before anything is written to it. */
  lemma NodeAborts(own: set<nat>, t: Task, from: Pc, m: Memory, m1: Memory, p: nat, next: nat, c: Counters, a: nat)
    requires Builds(own, t, from, m, NodeReading(p, c), m1) && m1.Has(p, BR_CODE_LEN) && Covered(own, p, BR_CODE_LEN)
    requires next == m1.Load(p) && p + PTR_SIZE <= a < p + BR_CODE_LEN && m1.Byte(a) != 0
    ensures Builds(own, t, from, m, Aborted, m1)
  {
    DidRead(own, t, from, m, NodeReading(p, c), m1, p, PTR_SIZE);
    TestAborts(own, t, from, m, m1, p, next, PTR_SIZE, c, a);
  }

  /** The code of a node is written byte by byte. */
  lemma {:induction false} DidEmit(own: set<nat>, t: Task, from: Pc, m: Memory, m1: Memory, p: nat, next: nat,
                                   c: Counters, i: nat)
    requires Builds(own, t, from, m, NodeWriting(p, next, 0, c), m1)
    requires m1.Has(p, BR_CODE_LEN) && Covered(own, p, BR_CODE_LEN) && i <= |NodeCode(next, c.chunkCount == 1)|
    ensures Builds(own, t, from, m, NodeWriting(p, next, i, c), m1.Written(p, NodeCode(next, c.chunkCount == 1)[..i]))
    decreases i
  {
    var code := NodeCode(next, c.chunkCount == 1);
    if i == 0 {
      assert m1.Written(p, code[..0]) == m1;
    } else {
      DidEmit(own, t, from, m, m1, p, next, c, i - 1);
      WrittenMore(m1, p, code, i - 1);
      EmitOne(t, p, next, i - 1, c);
      DidWrite(own, t, from, m, NodeWriting(p, next, i - 1, c), m1.Written(p, code[..i - 1]), p + (i - 1),
               [code[i - 1]], m1.Written(p, code[..i]));
    }
  }

  lemma EmitOne(t: Task, p: nat, next: nat, i: nat, c: Counters)
    requires i < |NodeCode(next, c.chunkCount == 1)|
    ensures TaskAccess(t, NodeWriting(p, next, i, c)) == Write(p + i, [NodeCode(next, c.chunkCount == 1)[i]])
    ensures TaskResume(t, NodeWriting(p, next, i, c), []) == NodeWriting(p, next, i + 1, c)
  {}

  /** One node: read the pointer, test the room behind it, write the code, and go on. */
  lemma DidNode(own: set<nat>, t: Task, from: Pc, m: Memory, m1: Memory, m2: Memory, p: nat, next: nat, c: Counters)
    requires Builds(own, t, from, m, NodeReading(p, c), m1) && m1.Has(p, BR_CODE_LEN) && Covered(own, p, BR_CODE_LEN)
    requires next == m1.Load(p) && forall a | p + PTR_SIZE <= a < p + BR_CODE_LEN :: m1.Byte(a) == 0
    requires Stored(m1, m2, p, NodeCode(next, c.chunkCount == 1))
    ensures Builds(own, t, from, m, Onward(t, next, NodeStarting(next, TakeNode(c))), m2)
  {
    var code := NodeCode(next, c.chunkCount == 1);
    DidRead(own, t, from, m, NodeReading(p, c), m1, p, PTR_SIZE);
    DidTest(own, t, from, m, m1, p, next, PTR_SIZE, c);
    DidEmit(own, t, from, m, m1, p, next, c, |code|);
    assert code[..|code|] == code;
    IsWritten(m1, m2, p, code);
    DidSkip(own, t, from, m, NodeWriting(p, next, |code|, c), m2);
  }

  // ----- one chase after the other

  /** All the chases of the list, from the first access to the last. */
  ghost predicate TasksRun(own: set<nat>, tasks: seq<Task>, m: Memory, w: Memory) {
    Reaches(BUILD, own, Local(tasks, Threading(0)), m, Local([], Threading(0)), w)
  }

  lemma {:induction false} HaltedBefore(l: Local, m: Memory, j: nat, k: nat)
    requires j <= k && Alone(BUILD, l, m, j).0.todo == []
    ensures Alone(BUILD, l, m, k) == Alone(BUILD, l, m, j)
  {
    if j < k {
      HaltedBefore(l, m, j, k - 1);
    }
  }

  /** Chases that come later do not matter for the first ones. */
  lemma {:induction false} LaterTasksIrrelevant(tasks: seq<Task>, rest: seq<Task>, pc: Pc, m: Memory, k: nat)
    requires forall j: nat | j < k :: Alone(BUILD, Local(tasks, pc), m, j).0.todo != []
    ensures var (l, w) := Alone(BUILD, Local(tasks, pc), m, k);
            Alone(BUILD, Local(tasks + rest, pc), m, k) == (Local(l.todo + rest, l.pc), w)
  {
    if k != 0 {
      LaterTasksIrrelevant(tasks, rest, pc, m, k - 1);
      var (l, w) := Alone(BUILD, Local(tasks, pc), m, k - 1);
      PerformWithRest(l, rest, w);
    }
  }

  lemma PerformWithRest(l: Local, rest: seq<Task>, m: Memory)
    requires l.todo != []
    ensures NextAccess(Local(l.todo + rest, l.pc)) == NextAccess(l)
    ensures var (l', m') := Perform(BUILD, l, m);
            Perform(BUILD, Local(l.todo + rest, l.pc), m) == (Local(l'.todo + rest, l'.pc), m')
  {
    assert (l.todo + rest)[0] == l.todo[0];
    assert (l.todo + rest)[1..] == l.todo[1..] + rest;
  }

  /** The step at which the last chase is done. */
  lemma {:induction false} LastStep(l: Local, m: Memory, k: nat) returns (n: nat)
    requires Alone(BUILD, l, m, k).0.todo == []
    ensures n <= k && Alone(BUILD, l, m, n) == Alone(BUILD, l, m, k)
    ensures forall j: nat | j < n :: Alone(BUILD, l, m, j).0.todo != []
  {
    if k == 0 || Alone(BUILD, l, m, k - 1).0.todo != [] {
      n := k;
      forall j: nat | j < n
        ensures Alone(BUILD, l, m, j).0.todo != []
      {
        if Alone(BUILD, l, m, j).0.todo == [] {
          HaltedBefore(l, m, j, k - 1);
        }
      }
    } else {
      HaltedBefore(l, m, k - 1, k);
      n := LastStep(l, m, k - 1);
    }
  }

  lemma TasksRunWithRest(own: set<nat>, tasks: seq<Task>, rest: seq<Task>, m: Memory, w: Memory)
    requires TasksRun(own, tasks, m, w)
    ensures Reaches(BUILD, own, Local(tasks + rest, Threading(0)), m, Local(rest, Threading(0)), w)
  {
    var l := Local(tasks, Threading(0));
    var k: nat :| Alone(BUILD, l, m, k) == (Local([], Threading(0)), w) && Obeys(BUILD, own, l, m, k);
    var n := LastStep(l, m, k);
    LaterTasksIrrelevant(tasks, rest, Threading(0), m, n);
    assert [] + rest == rest;
    forall j: nat | j < n
      ensures Allowed(own, BUILD.next(Alone(BUILD, Local(tasks + rest, Threading(0)), m, j).0))
    {
      LaterTasksIrrelevant(tasks, rest, Threading(0), m, j);
      PerformWithRest(Alone(BUILD, l, m, j).0, rest, Alone(BUILD, l, m, j).1);
      assert Allowed(own, BUILD.next(Alone(BUILD, l, m, j).0));
    }
    assert Obeys(BUILD, own, Local(tasks + rest, Threading(0)), m, n);
  }

  /** One more chase. */
  lemma OneMoreTask(own: set<nat>, tasks: seq<Task>, t: Task, m: Memory, mid: Memory, w: Memory)
    requires TasksRun(own, tasks, m, mid) && Builds(own, t, Threading(0), mid, TaskDone, w)
    ensures TasksRun(own, tasks + [t], m, w)
  {
    var start := Local(tasks + [t], Threading(0));
    TasksRunWithRest(own, tasks, [t], m, mid);
    ReachesTrans(BUILD, own, start, m, On(t, Threading(0)), mid, On(t, TaskDone), w);
    ReachesMore(BUILD, own, start, m, On(t, TaskDone), w);
  }
}
