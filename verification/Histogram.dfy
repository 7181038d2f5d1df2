/** The split atomic histogram (atomics/histo.hip): the total is rounded so that it can be divided
    among the threads, every thread increments random cells of a shared table, and the sum of the
    table is validated. */
module Histogram {
  import opened Numbers

  // ----- the least common multiple (std::lcm)

  function Gcd(a: nat, b: nat): nat
    decreases b
  {
    if b == 0 then a else Gcd(b, a % b)
  }

  function Lcm(a: nat, b: nat): (l: nat)
    requires 0 < a && 0 < b
  {
    GcdPositive(a, b);
    MulMono(0, a / Gcd(a, b), b);
    (a / Gcd(a, b)) * b
  }

  lemma GcdPositive(a: nat, b: nat)
    requires 0 < a || 0 < b
    ensures 0 < Gcd(a, b)
  {
    var p, q := GcdDivides(a, b);
  }

  lemma {:induction false} GcdDivides(a: nat, b: nat) returns (p: nat, q: nat)
    requires 0 < a || 0 < b
    ensures 0 < Gcd(a, b) && a == p * Gcd(a, b) && b == q * Gcd(a, b)
    decreases b
  {
    if b == 0 {
      p, q := 1, 0;
    } else {
      var d, m := Quotient(a, b);
      var r;
      q, r := GcdDivides(b, m);
      Combine(a, b, d, m, q, r, Gcd(b, m));
      p := d * q + r;
    }
  }

  lemma Quotient(a: nat, b: nat) returns (d: nat, m: nat)
    requires 0 < b
    ensures a == d * b + m && m == a % b && m < b && Gcd(a, b) == Gcd(b, m)
  {
    d, m := a / b, a % b;
  }

  lemma Combine(a: nat, b: nat, d: nat, m: nat, q: nat, r: nat, g: nat)
    requires a == d * b + m && b == q * g && m == r * g
    ensures 0 <= d * q + r && a == (d * q + r) * g
  {
    MulMono(0, d, q);
    assert (d * q + r) * g == (d * q) * g + r * g;
    assert (d * q) * g == d * (q * g);
  }

  lemma {:induction false} Bezout(a: nat, b: nat) returns (u: int, v: int)
    requires 0 < a || 0 < b
    ensures a * u + b * v == Gcd(a, b)
    decreases b
  {
    if b == 0 {
      u, v := 1, 0;
    } else {
      var u', v' := Bezout(b, a % b);
      u, v := v', u' - (a / b) * v';
      Substitute(a, b, a / b, a % b, u', v');
    }
  }

  lemma Substitute(a: int, b: int, d: int, r: int, u: int, v: int)
    requires a == d * b + r
    ensures a * v + b * (u - d * v) == b * u + r * v
  {
    assert b * (u - d * v) == b * u - b * (d * v);
    assert a * v == (d * b) * v + r * v;
    assert (d * b) * v == b * (d * v);
  }

  lemma LcmIsMultiple(a: nat, b: nat)
    requires 0 < a && 0 < b
    ensures 0 < Lcm(a, b) && Lcm(a, b) % a == 0 && Lcm(a, b) % b == 0
  {
    var p, q := GcdDivides(a, b);
    var g := Gcd(a, b);
    DivModUnique(a, g, p, 0);
    assert p != 0 && q != 0;
    MulMono(1, p, b);
    DivModUnique(p * b, b, p, 0);
    assert p * (q * g) == q * (p * g);
    DivModUnique(q * a, a, q, 0);
  }

  /** Every common multiple is a multiple of the least one. */
  lemma LcmDivides(a: nat, b: nat, x: nat)
    requires 0 < a && 0 < b && x % a == 0 && x % b == 0
    ensures 0 < Lcm(a, b) && x % Lcm(a, b) == 0
  {
    LcmIsMultiple(a, b);
    var p, q := GcdDivides(a, b);
    var u, v := Bezout(a, b);
    var g, l := Gcd(a, b), Lcm(a, b);
    DivModUnique(a, g, p, 0);
    var m, n := x / a, x / b;
    ExactDiv(x, a);
    ExactDiv(x, b);
    var t := n * u + m * v;
    LcmFactor(a, b, g, l, p, m, n, u, v, x);
    DivModUnique(x, l, t, 0);
  }

  lemma LcmFactor(a: int, b: int, g: int, l: int, p: int, m: int, n: int, u: int, v: int, x: int)
    requires 0 < g && a == p * g && l == p * b && x == m * a && x == n * b && a * u + b * v == g
    ensures x == (n * u + m * v) * l
  {
    var t := n * u + m * v;
    CommonMultiple(a, b, x, m, n, u, v);
    assert a * b == l * g by { Swap(p, g, b); }
    Swap(l, g, t);
    Cancel(x, l * t, g);
    assert l * t == t * l;
  }

  lemma Swap(x: int, y: int, z: int)
    ensures (x * y) * z == (x * z) * y
  {}

  lemma CommonMultiple(a: int, b: int, x: int, m: int, n: int, u: int, v: int)
    requires x == m * a && x == n * b
    ensures x * (a * u + b * v) == (a * b) * (n * u + m * v)
  {
    assert x * (a * u) == (n * b) * (a * u) == (a * b) * (n * u);
    assert x * (b * v) == (m * a) * (b * v) == (a * b) * (m * v);
    assert x * (a * u + b * v) == x * (a * u) + x * (b * v);
    assert (a * b) * (n * u + m * v) == (a * b) * (n * u) + (a * b) * (m * v);
  }

  lemma Cancel(x: int, y: int, g: int)
    requires x * g == y * g && g != 0
    ensures x == y
  {}

  // ----- rounding and shares

  datatype Spec = Spec(tableSize: nat, total: nat, threadsCpu: nat, threadsGpu: nat)

  /** The total must be a multiple of this; 0 when there are no threads. */
  function Unit(cpu: nat, gpu: nat): (unit: nat)
    ensures 0 < unit <==> cpu != 0 || gpu != 0
  {
    if cpu != 0 && gpu != 0 then LcmIsMultiple(cpu, gpu); 2 * Lcm(cpu, gpu) else if cpu != 0 then cpu else gpu
  }

  /** What each thread of a side does: half of the total for each side if there are two. */
  function ShareOf(total: nat, own: nat, other: nat): nat
    requires 0 < own
  {
    if other != 0 then (total / own) / 2 else total / own
  }

  /** The increments of all threads together. */
  function SharedOut(total: nat, cpu: nat, gpu: nat): nat {
    (if cpu == 0 then 0 else cpu * ShareOf(total, cpu, gpu)) + (if gpu == 0 then 0 else gpu * ShareOf(total, gpu, cpu))
  }

  /** main: the rounding of the total: to the least total, not below the requested, that the
      threads can share out without a remainder. */
  method RoundTotal(spec: Spec) returns (total: nat)
    ensures spec.total == 0 || (spec.threadsCpu == 0 && spec.threadsGpu == 0) ==> total == spec.total
    ensures spec.total != 0 && (spec.threadsCpu != 0 || spec.threadsGpu != 0) ==>
              spec.total <= total && SharedOut(total, spec.threadsCpu, spec.threadsGpu) == total
              && (forall n: nat | spec.total <= n && SharedOut(n, spec.threadsCpu, spec.threadsGpu) == n :: total <= n)
              && total == RoundedUp(spec.total, Unit(spec.threadsCpu, spec.threadsGpu))
  {
    total := spec.total;
    if total != 0 {
      var mult := 0;
      if spec.threadsCpu != 0 && spec.threadsGpu != 0 {
        mult := 2 * Lcm(spec.threadsCpu, spec.threadsGpu);
      } else if spec.threadsCpu != 0 {
        mult := spec.threadsCpu;
      } else if spec.threadsGpu != 0 {
        mult := spec.threadsGpu;
      }
      assert mult == Unit(spec.threadsCpu, spec.threadsGpu);
      if mult != 0 {
        RoundedTotalIsLeast(total, spec.threadsCpu, spec.threadsGpu);
        total := ((total + mult - 1) / mult) * mult;
      }
    }
  }

  function RoundedUp(total: nat, unit: nat): (r: nat)
    requires 0 < unit
  {
    MulMono(0, (total + unit - 1) / unit, unit);
    ((total + unit - 1) / unit) * unit
  }

  lemma RoundedUpIsLeast(total: nat, unit: nat)
    requires 0 < unit
    ensures var r := RoundedUp(total, unit);
            total <= r < total + unit && r % unit == 0
    ensures forall n: nat | total <= n && n % unit == 0 :: RoundedUp(total, unit) <= n
  {
    var q := (total + unit - 1) / unit;
    DivBelow(total + unit - 1, q, unit);
    DivModUnique(q * unit, unit, q, 0);
    forall n: nat | total <= n && n % unit == 0
      ensures RoundedUp(total, unit) <= n
    {
      ExactDiv(n, unit);
      FewerIsLess(total, unit, q, n / unit);
    }
  }

  lemma FewerIsLess(total: int, unit: int, q: int, p: int)
    requires 0 < unit && q * unit < total + unit && total <= p * unit
    ensures q * unit <= p * unit
  {
    assert (p + 1) * unit == p * unit + unit;
    if p < q {
      MulMono(p + 1, q, unit);
    } else {
      MulMono(q, p, unit);
    }
  }

  /** Twice what the threads of one side do when there are two sides. */
  lemma HalfShare(total: nat, own: nat)
    requires 0 < own
    ensures 2 * (own * ((total / own) / 2)) == total - total % (2 * own) && 0 <= total % (2 * own)
  {
    DivDiv(total, own, 2);
    assert own * 2 == 2 * own;
    assert 2 * (own * (total / (2 * own))) == (2 * own) * (total / (2 * own));
  }

  lemma TwiceMultiple(total: nat, m: nat)
    requires 0 < m
    ensures total % (2 * m) == 0 <==> total % 2 == 0 && (total / 2) % m == 0
  {
    DivDiv(total, 2, m);
    if total % (2 * m) == 0 {
      ExactDiv(total, 2 * m);
      var q := total / (2 * m);
      assert total == 2 * (q * m) + 0 by { assert q * (2 * m) == 2 * (q * m); }
      DivModUnique(total / 2, m, q, 0);
    }
    if total % 2 == 0 && (total / 2) % m == 0 {
      ExactDiv(total / 2, m);
      var q := (total / 2) / m;
      assert total == q * (2 * m) by { assert q * (2 * m) == 2 * (q * m); }
      DivModUnique(total, 2 * m, q, 0);
    }
  }

  /** The shares add up to the total exactly if the total is a multiple of the unit. */
  lemma SharesAddUpExactly(total: nat, cpu: nat, gpu: nat)
    requires cpu != 0 || gpu != 0
    ensures SharedOut(total, cpu, gpu) <= total
    ensures SharedOut(total, cpu, gpu) == total <==> total % Unit(cpu, gpu) == 0
  {
    if cpu != 0 && gpu != 0 {
      HalfShare(total, cpu);
      HalfShare(total, gpu);
      var l := Lcm(cpu, gpu);
      LcmIsMultiple(cpu, gpu);
      TwiceMultiple(total, cpu);
      TwiceMultiple(total, gpu);
      TwiceMultiple(total, l);
      if (total / 2) % cpu == 0 && (total / 2) % gpu == 0 {
        LcmDivides(cpu, gpu, total / 2);
      }
      if (total / 2) % l == 0 {
        Transitive(total / 2, l, cpu);
        Transitive(total / 2, l, gpu);
      }
    } else {
      var n := if cpu != 0 then cpu else gpu;
      assert total == (total / n) * n + total % n;
    }
  }

  lemma Transitive(x: nat, l: nat, a: nat)
    requires 0 < l && 0 < a && x % l == 0 && l % a == 0
    ensures x % a == 0
  {
    ExactDiv(x, l);
    ExactDiv(l, a);
    var q, p := x / l, l / a;
    assert q * (p * a) == (q * p) * a;
    DivModUnique(x, a, q * p, 0);
  }

  /** The rounded total is the least one, not below the requested, that the threads can share out
      without a remainder. */
  lemma RoundedTotalIsLeast(total: nat, cpu: nat, gpu: nat)
    requires cpu != 0 || gpu != 0
    ensures var r := RoundedUp(total, Unit(cpu, gpu));
            total <= r && SharedOut(r, cpu, gpu) == r
            && forall n: nat | total <= n && SharedOut(n, cpu, gpu) == n :: r <= n
  {
    SharesAddUpExactly(total, cpu, gpu);
    RoundedUpIsLeast(total, Unit(cpu, gpu));
    SharesAddUpExactly(RoundedUp(total, Unit(cpu, gpu)), cpu, gpu);
    forall n: nat | total <= n && SharedOut(n, cpu, gpu) == n
      ensures RoundedUp(total, Unit(cpu, gpu)) <= n
    {
      SharesAddUpExactly(n, cpu, gpu);
    }
  }

  // ----- the increments, interleaved

  const GRANUL: nat := 200

  datatype Side = Cpu | Gpu

  /** A thread has made `done` of its `share` increments; `tick` says that it is about to count a
      batch. ticks is history: how many batches it has counted. */
  datatype Worker = Worker(side: Side, share: nat, done: nat, tick: bool, ticks: nat)

  /** picks is history: the cells incremented so far. Cells hold values below `limit`. */
  datatype State = State(table: seq<nat>, workers: seq<Worker>, cpuCount: nat, gpuCount: nat, picks: seq<nat>)

  /** One atomic action of worker t; cell is what its random generator yields. */
  function Step(limit: nat, s: State, t: nat, cell: nat): State
    requires 0 < limit && t < |s.workers| && cell < |s.table|
  {
    var w := s.workers[t];
    if w.tick then
      var s' := s.(workers := s.workers[t := w.(tick := false, ticks := w.ticks + 1)]);
      if w.side.Cpu? then s'.(cpuCount := s.cpuCount + 1) else s'.(gpuCount := s.gpuCount + 1)
    else if w.done < w.share then
      s.(table := s.table[cell := (s.table[cell] + 1) % limit],
         workers := s.workers[t := w.(done := w.done + 1, tick := w.done % GRANUL == 0)],
         picks := s.picks + [cell])
    else s
  }

  datatype Pick = Pick(worker: nat, cell: nat)

  /** The state after a schedule. The counters start with any value. */
  function Run(limit: nat, start: State, schedule: seq<Pick>): (s: State)
    requires 0 < limit
    ensures |s.table| == |start.table| && |s.workers| == |start.workers|
  {
    if schedule == [] then start
    else
      var s := Run(limit, start, schedule[..|schedule| - 1]);
      var a := schedule[|schedule| - 1];
      if a.worker < |s.workers| && a.cell < |s.table| then Step(limit, s, a.worker, a.cell) else s
  }

  /** All cells zero, nothing done. */
  ghost predicate Fresh(s: State) {
    s.picks == [] && (forall k | 0 <= k < |s.table| :: s.table[k] == 0)
    && forall t | 0 <= t < |s.workers| :: s.workers[t].done == 0 && !s.workers[t].tick && s.workers[t].ticks == 0
  }

  function Occurrences(picks: seq<nat>, k: nat): nat {
    if picks == [] then 0 else Occurrences(picks[..|picks| - 1], k) + if picks[|picks| - 1] == k then 1 else 0
  }

  /** What is left to do. */
  function Remaining(workers: seq<Worker>): int {
    if workers == [] then 0
    else Remaining(workers[..|workers| - 1]) + (workers[|workers| - 1].share - workers[|workers| - 1].done)
  }

  function Done(workers: seq<Worker>, side: Side): nat {
    if workers == [] then 0
    else
      var w := workers[|workers| - 1];
      Done(workers[..|workers| - 1], side) + if w.side == side then w.done else 0
  }

  function Ticks(workers: seq<Worker>, side: Side): nat {
    if workers == [] then 0
    else
      var w := workers[|workers| - 1];
      Ticks(workers[..|workers| - 1], side) + if w.side == side then w.ticks else 0
  }

  /** A thread has counted a batch for every started block of 200 increments, but for the tick
      that it is about to make. */
  ghost predicate WorkerOk(w: Worker) {
    w.done <= w.share
    && GRANUL * w.ticks <= w.done + 199
    && w.done <= GRANUL * w.ticks + 1
    && (if w.tick then w.done == GRANUL * w.ticks + 1 else w.done <= GRANUL * w.ticks)
  }

  ghost predicate Invariant(limit: nat, start: State, s: State)
    requires 0 < limit
  {
    |s.table| == |start.table| && |s.workers| == |start.workers|
    && TableOk(limit, s.table, s.picks)
    && |s.picks| + Remaining(s.workers) == Remaining(start.workers)
    && |s.picks| == Done(s.workers, Cpu) + Done(s.workers, Gpu)
    && s.cpuCount == start.cpuCount + Ticks(s.workers, Cpu)
    && s.gpuCount == start.gpuCount + Ticks(s.workers, Gpu)
    && forall t | 0 <= t < |s.workers| :: WorkerOk(s.workers[t])
  }

  lemma {:induction false} SumsUpdate(ws: seq<Worker>, t: nat, w: Worker)
    requires t < |ws|
    ensures Remaining(ws[t := w]) == Remaining(ws) - (ws[t].share - ws[t].done) + (w.share - w.done)
    ensures forall side :: Done(ws[t := w], side) ==
              Done(ws, side) - (if ws[t].side == side then ws[t].done else 0) + (if w.side == side then w.done else 0)
    ensures forall side :: Ticks(ws[t := w], side) ==
              Ticks(ws, side) - (if ws[t].side == side then ws[t].ticks else 0)
              + (if w.side == side then w.ticks else 0)
  {
    var n := |ws| - 1;
    if t == n {
      assert ws[t := w][..n] == ws[..n];
    } else {
      SumsUpdate(ws[..n], t, w);
      assert ws[t := w][..n] == ws[..n][t := w];
    }
  }

  lemma OccurrencesMore(picks: seq<nat>, cell: nat, k: nat)
    ensures Occurrences(picks + [cell], k) == Occurrences(picks, k) + if cell == k then 1 else 0
  {
    assert (picks + [cell])[..|picks|] == picks;
  }

  lemma {:induction false} SumsOfFresh(ws: seq<Worker>)
    requires forall t | 0 <= t < |ws| :: ws[t].done == 0 && ws[t].ticks == 0
    ensures Done(ws, Cpu) == 0 && Done(ws, Gpu) == 0 && Ticks(ws, Cpu) == 0 && Ticks(ws, Gpu) == 0
  {
    if ws != [] {
      SumsOfFresh(ws[..|ws| - 1]);
    }
  }

  lemma StepKeeps(limit: nat, start: State, s: State, t: nat, cell: nat)
    requires 0 < limit && Invariant(limit, start, s) && t < |s.workers| && cell < |s.table|
    ensures Invariant(limit, start, Step(limit, s, t, cell))
  {
    var s' := Step(limit, s, t, cell);
    var w := s.workers[t];
    assert WorkerOk(w);
    SumsUpdate(s.workers, t, s'.workers[t]);
    if !w.tick && w.done < w.share {
      OneMoreIncrement(w);
      PickKeepsTable(limit, s.table, s.picks, cell);
    }
  }

  /** Every cell holds the number of increments it has had, modulo the width of a cell. */
  ghost predicate TableOk(limit: nat, table: seq<nat>, picks: seq<nat>)
    requires 0 < limit
  {
    (forall k | 0 <= k < |table| :: table[k] == Occurrences(picks, k) % limit)
    && forall i | 0 <= i < |picks| :: picks[i] < |table|
  }

  lemma PickKeepsTable(limit: nat, table: seq<nat>, picks: seq<nat>, cell: nat)
    requires 0 < limit && TableOk(limit, table, picks) && cell < |table|
    ensures TableOk(limit, table[cell := (table[cell] + 1) % limit], picks + [cell])
  {
    var table' := table[cell := (table[cell] + 1) % limit];
    forall k | 0 <= k < |table|
      ensures table'[k] == Occurrences(picks + [cell], k) % limit
    {
      OccurrencesMore(picks, cell, k);
      ModuloSucc(Occurrences(picks, k), limit);
    }
  }

  lemma ModuloSucc(n: nat, limit: nat)
    requires 0 < limit
    ensures (n % limit + 1) % limit == (n + 1) % limit
  {
    NextIsModulo(n, limit);
    if n % limit + 1 < limit {
      SmallModulo(n % limit + 1, limit);
    } else {
      DivModUnique(limit, limit, 1, 0);
    }
  }

  lemma OneMoreIncrement(w: Worker)
    requires WorkerOk(w) && !w.tick && w.done < w.share
    ensures WorkerOk(w.(done := w.done + 1, tick := w.done % GRANUL == 0))
  {}

  lemma {:induction false} RunHolds(limit: nat, start: State, schedule: seq<Pick>)
    requires 0 < limit && Fresh(start)
    ensures Invariant(limit, start, Run(limit, start, schedule))
  {
    if schedule == [] {
      SumsOfFresh(start.workers);
    } else {
      var n := |schedule| - 1;
      RunHolds(limit, start, schedule[..n]);
      var s := Run(limit, start, schedule[..n]);
      var a := schedule[n];
      if a.worker < |s.workers| && a.cell < |s.table| {
        StepKeeps(limit, start, s, a.worker, a.cell);
      }
    }
  }

  // ----- conservation

  /** A finished run: no thread has anything left to do. */
  ghost predicate Finished(s: State) {
    forall t | 0 <= t < |s.workers| :: s.workers[t].done == s.workers[t].share && !s.workers[t].tick
  }

  lemma {:induction false} NothingRemains(ws: seq<Worker>)
    requires forall t | 0 <= t < |ws| :: ws[t].done == ws[t].share
    ensures Remaining(ws) == 0
  {
    if ws != [] {
      NothingRemains(ws[..|ws| - 1]);
    }
  }

  /** How many of the picks fall on cells below n. */
  function PicksBelow(picks: seq<nat>, n: nat): nat {
    if n == 0 then 0 else PicksBelow(picks, n - 1) + Occurrences(picks, n - 1)
  }

  lemma {:induction false} NoPicks(n: nat)
    ensures PicksBelow([], n) == 0
  {
    if n != 0 {
      NoPicks(n - 1);
    }
  }

  lemma {:induction false} PicksBelowMore(picks: seq<nat>, cell: nat, n: nat)
    ensures PicksBelow(picks + [cell], n) == PicksBelow(picks, n) + if cell < n then 1 else 0
  {
    if n != 0 {
      PicksBelowMore(picks, cell, n - 1);
      OccurrencesMore(picks, cell, n - 1);
    }
  }

  /** Every pick falls on exactly one cell of the table. */
  lemma {:induction false} AllPicksCounted(picks: seq<nat>, n: nat)
    requires forall i | 0 <= i < |picks| :: picks[i] < n
    ensures PicksBelow(picks, n) == |picks|
  {
    if picks == [] {
      NoPicks(n);
    } else {
      var m := |picks| - 1;
      AllPicksCounted(picks[..m], n);
      PicksBelowMore(picks[..m], picks[m], n);
      assert picks == picks[..m] + [picks[m]];
    }
  }

  /** The sum of the first n cells, modulo the width of the sum. */
  function SumModulo(table: seq<nat>, n: nat, limit: nat): nat
    requires 0 < limit && n <= |table|
  {
    if n == 0 then 0 else (SumModulo(table, n - 1, limit) + table[n - 1]) % limit
  }

  lemma AddModuli(a: nat, b: nat, limit: nat)
    requires 0 < limit
    ensures (a % limit + b % limit) % limit == (a + b) % limit
  {
    var s := a % limit + b % limit;
    var q := a / limit + b / limit + s / limit;
    assert a + b == q * limit + s % limit by {
      assert q * limit == (a / limit) * limit + (b / limit) * limit + (s / limit) * limit;
    }
    DivModUnique(a + b, limit, q, s % limit);
  }

  lemma {:induction false} SumOfCells(limit: nat, table: seq<nat>, picks: seq<nat>, n: nat)
    requires 0 < limit && TableOk(limit, table, picks) && n <= |table|
    ensures SumModulo(table, n, limit) == PicksBelow(picks, n) % limit
  {
    if n == 0 {
      SmallModulo(0, limit);
    } else {
      SumOfCells(limit, table, picks, n - 1);
      AddModuli(PicksBelow(picks, n - 1), Occurrences(picks, n - 1), limit);
    }
  }

  /** In every run under any interleaving: each cell is the number of times it was picked, modulo
      its width; the sum of the table is the number of increments made so far, modulo its width;
      and increments made and increments left come to what the threads have to do. */
  lemma HistogramConserved(limit: nat, start: State, schedule: seq<Pick>)
    requires 0 < limit && Fresh(start)
    ensures var s := Run(limit, start, schedule);
            TableOk(limit, s.table, s.picks)
            && SumModulo(s.table, |s.table|, limit) == |s.picks| % limit
            && |s.picks| + Remaining(s.workers) == Remaining(start.workers)
  {
    RunHolds(limit, start, schedule);
    var s := Run(limit, start, schedule);
    SumOfCells(limit, s.table, s.picks, |s.table|);
    AllPicksCounted(s.picks, |s.table|);
  }

  // ----- the whole program

  /** run: the threads of a specification, with their shares. */
  method MakeWorkers(spec: Spec) returns (workers: seq<Worker>)
    ensures workers == WorkersOf(spec.total, spec.threadsCpu, spec.threadsGpu)
  {
    workers := [];
    if spec.threadsGpu != 0 {
      var share := spec.total / spec.threadsGpu;
      if spec.threadsCpu != 0 {
        share := share / 2;
      }
      workers := Team(Gpu, spec.threadsGpu, share);
    }
    if spec.threadsCpu != 0 {
      var share := spec.total / spec.threadsCpu;
      if spec.threadsGpu != 0 {
        share := share / 2;
      }
      var tid := 0;
      ghost var gpu := workers;
      while tid < spec.threadsCpu
        invariant 0 <= tid <= spec.threadsCpu
        invariant workers == gpu + Team(Cpu, tid, share)
      {
        TeamMore(gpu, Cpu, tid, share);
        workers := workers + [Worker(Cpu, share, 0, false, 0)];
        tid := tid + 1;
      }
    }
  }

  function Team(side: Side, n: nat, share: nat): (r: seq<Worker>)
    ensures |r| == n && forall t | 0 <= t < n :: r[t] == Worker(side, share, 0, false, 0)
  {
    seq(n, _ => Worker(side, share, 0, false, 0))
  }

  lemma TeamMore(others: seq<Worker>, side: Side, n: nat, share: nat)
    ensures others + Team(side, n, share) + [Worker(side, share, 0, false, 0)] == others + Team(side, n + 1, share)
  {}

  function WorkersOf(total: nat, cpu: nat, gpu: nat): seq<Worker> {
    Team(Gpu, gpu, if gpu == 0 then 0 else ShareOf(total, gpu, cpu))
    + Team(Cpu, cpu, if cpu == 0 then 0 else ShareOf(total, cpu, gpu))
  }

  lemma {:induction false} RemainingAppend(a: seq<Worker>, b: seq<Worker>)
    ensures Remaining(a + b) == Remaining(a) + Remaining(b)
    decreases |b|
  {
    if b == [] {
      assert a + b == a;
    } else {
      RemainingAppend(a, b[..|b| - 1]);
      assert (a + b)[..|a + b| - 1] == a + b[..|b| - 1];
    }
  }

  lemma {:induction false} TeamRemaining(side: Side, n: nat, share: nat)
    ensures Remaining(Team(side, n, share)) == n * share
  {
    if n != 0 {
      TeamRemaining(side, n - 1, share);
      assert Team(side, n, share)[..n - 1] == Team(side, n - 1, share);
      assert n * share == (n - 1) * share + share;
    }
  }

  /** main and run, up to the start of the threads: the total is rounded, the cells are zero, and each
      thread has its share. The counters are not initialized. */
  method Begin(spec: Spec, cpuCount: nat, gpuCount: nat) returns (total: nat, start: State)
    ensures Fresh(start) && |start.table| == spec.tableSize
    ensures start.workers == WorkersOf(total, spec.threadsCpu, spec.threadsGpu)
    ensures spec.total != 0 && (spec.threadsCpu != 0 || spec.threadsGpu != 0) ==>
              total == RoundedUp(spec.total, Unit(spec.threadsCpu, spec.threadsGpu))
    ensures spec.threadsCpu == 0 && spec.threadsGpu == 0 ==> total == spec.total
    ensures start.cpuCount == cpuCount && start.gpuCount == gpuCount
  {
    total := RoundTotal(spec);
    var workers := MakeWorkers(spec.(total := total));
    start := State(seq(spec.tableSize, _ => 0), workers, cpuCount, gpuCount, []);
  }

  /** run: the validation of the table. */
  method Validate(table: array<nat>, limit: nat, total: nat) returns (ok: bool)
    requires 0 < limit
    ensures ok <==> SumModulo(table[..], table.Length, limit) == total
  {
    var sum := 0;
    var i := 0;
    while i < table.Length
      invariant 0 <= i <= table.Length && sum == SumModulo(table[..], i, limit)
    {
      sum := (sum + table[i]) % limit;
      i := i + 1;
    }
    ok := sum == total;
  }

  /** With a requested total and at least one thread: whatever cells are picked and however the
      increments interleave, a finished run has made exactly the rounded total of increments, and it
      validates if and only if that total fits the data type of the table. */
  lemma ValidatesIffTotalFits(limit: nat, requested: nat, cpu: nat, gpu: nat, start: State, schedule: seq<Pick>)
    requires 0 < limit && 0 < requested && (cpu != 0 || gpu != 0)
    requires Fresh(start) && start.workers == WorkersOf(RoundedUp(requested, Unit(cpu, gpu)), cpu, gpu)
    requires Finished(Run(limit, start, schedule))
    ensures var s, total := Run(limit, start, schedule), RoundedUp(requested, Unit(cpu, gpu));
            |s.picks| == total && (SumModulo(s.table, |s.table|, limit) == total <==> total < limit)
  {
    var s, total := Run(limit, start, schedule), RoundedUp(requested, Unit(cpu, gpu));
    HistogramConserved(limit, start, schedule);
    NothingRemains(s.workers);
    SharesAreRemaining(total, cpu, gpu);
    RoundedTotalIsLeast(requested, cpu, gpu);
    if total < limit {
      SmallModulo(total, limit);
    }
  }

  /** Steps left: two for every increment, one for a tick that is due. */
  function StepsLeft(workers: seq<Worker>): int {
    if workers == [] then 0
    else
      var w := workers[|workers| - 1];
      StepsLeft(workers[..|workers| - 1]) + 2 * (w.share - w.done) + (if w.tick then 1 else 0)
  }

  lemma {:induction false} StepsLeftUpdate(ws: seq<Worker>, t: nat, w: Worker)
    requires t < |ws|
    ensures StepsLeft(ws[t := w]) == StepsLeft(ws) - (2 * (ws[t].share - ws[t].done) + (if ws[t].tick then 1 else 0))
                                     + 2 * (w.share - w.done) + (if w.tick then 1 else 0)
  {
    var n := |ws| - 1;
    if t == n {
      assert ws[t := w][..n] == ws[..n];
    } else {
      StepsLeftUpdate(ws[..n], t, w);
      assert ws[t := w][..n] == ws[..n][t := w];
    }
  }

  lemma {:induction false} StepsLeftNatural(ws: seq<Worker>)
    requires forall t | 0 <= t < |ws| :: WorkerOk(ws[t])
    ensures 0 <= StepsLeft(ws)
  {
    if ws != [] {
      assert WorkerOk(ws[|ws| - 1]);
      StepsLeftNatural(ws[..|ws| - 1]);
    }
  }

  /** Every run can be brought to its end. */
  lemma {:induction false} CanFinish(limit: nat, start: State, schedule: seq<Pick>) returns (longer: seq<Pick>)
    requires 0 < limit && Fresh(start) && start.table != []
    ensures schedule <= longer && Finished(Run(limit, start, longer))
    decreases StepsLeft(Run(limit, start, schedule).workers)
  {
    var s := Run(limit, start, schedule);
    RunHolds(limit, start, schedule);
    if t :| 0 <= t < |s.workers| && (s.workers[t].done != s.workers[t].share || s.workers[t].tick) {
      var more := schedule + [Pick(t, 0)];
      assert more[..|schedule|] == schedule;
      var s' := Step(limit, s, t, 0);
      assert WorkerOk(s.workers[t]);
      StepsLeftUpdate(s.workers, t, s'.workers[t]);
      RunHolds(limit, start, more);
      StepsLeftNatural(s.workers);
      StepsLeftNatural(s'.workers);
      longer := CanFinish(limit, start, more);
    } else {
      longer := schedule;
    }
  }

  /** Every specification with a table, a total and a thread has runs that finish, and they validate
      if and only if the total fits. */
  lemma VerdictIsReached(limit: nat, requested: nat, cpu: nat, gpu: nat, start: State) returns (schedule: seq<Pick>)
    requires 0 < limit && 0 < requested && (cpu != 0 || gpu != 0) && start.table != []
    requires Fresh(start) && start.workers == WorkersOf(RoundedUp(requested, Unit(cpu, gpu)), cpu, gpu)
    ensures var s, total := Run(limit, start, schedule), RoundedUp(requested, Unit(cpu, gpu));
            Finished(s) && (SumModulo(s.table, |s.table|, limit) == total <==> total < limit)
  {
    schedule := CanFinish(limit, start, []);
    ValidatesIffTotalFits(limit, requested, cpu, gpu, start, schedule);
  }

  /** 2^32 increments by one CPU thread on 32-bit cells: none is lost, and the validation fails. */
  lemma LargeTotalFails(start: State) returns (schedule: seq<Pick>)
    requires Fresh(start) && start.table != [] && start.workers == WorkersOf(0x1_0000_0000, 1, 0)
    ensures var s := Run(0x1_0000_0000, start, schedule);
            Finished(s) && |s.picks| == 0x1_0000_0000 && SumModulo(s.table, |s.table|, 0x1_0000_0000) != 0x1_0000_0000
  {
    var n := 0x1_0000_0000;
    assert Unit(1, 0) == 1 && RoundedUp(n, 1) == n;
    schedule := VerdictIsReached(n, n, 1, 0, start);
    ValidatesIffTotalFits(n, n, 1, 0, start, schedule);
  }

  lemma SharesAreRemaining(total: nat, cpu: nat, gpu: nat)
    ensures Remaining(WorkersOf(total, cpu, gpu)) == SharedOut(total, cpu, gpu)
  {
    var g := if gpu == 0 then 0 else ShareOf(total, gpu, cpu);
    var c := if cpu == 0 then 0 else ShareOf(total, cpu, gpu);
    RemainingAppend(Team(Gpu, gpu, g), Team(Cpu, cpu, c));
    TeamRemaining(Gpu, gpu, g);
    TeamRemaining(Cpu, cpu, c);
  }

  /** Without threads nothing is incremented, and a requested total is never validated. */
  lemma NoThreadsNoTotal(limit: nat, requested: nat, start: State, schedule: seq<Pick>)
    requires 0 < limit && 0 < requested && Fresh(start) && start.workers == WorkersOf(requested, 0, 0)
    ensures var s := Run(limit, start, schedule);
            Finished(s) && SumModulo(s.table, |s.table|, limit) != requested
  {
    HistogramConserved(limit, start, schedule);
    SmallModulo(0, limit);
  }

  // ----- the progress counters

  /** Workers of one side. */
  function CountSide(workers: seq<Worker>, side: Side): nat {
    if workers == [] then 0
    else CountSide(workers[..|workers| - 1], side) + if workers[|workers| - 1].side == side then 1 else 0
  }

  lemma {:induction false} TicksBracketDone(ws: seq<Worker>, side: Side)
    requires forall t | 0 <= t < |ws| :: WorkerOk(ws[t])
    ensures Done(ws, side) - CountSide(ws, side) <= GRANUL * Ticks(ws, side)
            <= Done(ws, side) + 199 * CountSide(ws, side)
  {
    if ws != [] {
      var n := |ws| - 1;
      TicksBracketDone(ws[..n], side);
      assert WorkerOk(ws[n]);
    }
  }

  /** Between any two moments of any run, 200 times the advance of a side's counter is within 200
      increments per thread of that side of the increments it has really made, in either direction. */
  lemma CounterBracketsProgress(limit: nat, start: State, first: seq<Pick>, second: seq<Pick>)
    requires 0 < limit && Fresh(start)
    ensures var a, b := Run(limit, start, first), Run(limit, start, second);
            var cpu, gpu := CountSide(a.workers, Cpu), CountSide(a.workers, Gpu);
            -200 * cpu <= GRANUL * (b.cpuCount - a.cpuCount) - (Done(b.workers, Cpu) - Done(a.workers, Cpu))
            <= 200 * cpu
            && -200 * gpu <= GRANUL * (b.gpuCount - a.gpuCount) - (Done(b.workers, Gpu) - Done(a.workers, Gpu))
            <= 200 * gpu
  {
    var a, b := Run(limit, start, first), Run(limit, start, second);
    RunHolds(limit, start, first);
    RunHolds(limit, start, second);
    SidesKept(limit, start, first);
    SidesKept(limit, start, second);
    TicksBracketDone(a.workers, Cpu);
    TicksBracketDone(b.workers, Cpu);
    TicksBracketDone(a.workers, Gpu);
    TicksBracketDone(b.workers, Gpu);
  }

  lemma {:induction false} SideUpdate(ws: seq<Worker>, t: nat, w: Worker, side: Side)
    requires t < |ws| && w.side == ws[t].side
    ensures CountSide(ws[t := w], side) == CountSide(ws, side)
  {
    var n := |ws| - 1;
    if t == n {
      assert ws[t := w][..n] == ws[..n];
    } else {
      SideUpdate(ws[..n], t, w, side);
      assert ws[t := w][..n] == ws[..n][t := w];
    }
  }

  lemma {:induction false} SidesKept(limit: nat, start: State, schedule: seq<Pick>)
    requires 0 < limit
    ensures forall side :: CountSide(Run(limit, start, schedule).workers, side) == CountSide(start.workers, side)
  {
    if schedule != [] {
      var n := |schedule| - 1;
      SidesKept(limit, start, schedule[..n]);
      var s := Run(limit, start, schedule[..n]);
      var a := schedule[n];
      if a.worker < |s.workers| && a.cell < |s.table| {
        var s' := Step(limit, s, a.worker, a.cell);
        SideUpdate(s.workers, a.worker, s'.workers[a.worker], Cpu);
        SideUpdate(s.workers, a.worker, s'.workers[a.worker], Gpu);
      }
    }
  }
}
