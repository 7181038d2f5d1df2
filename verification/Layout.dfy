/** Where the cells of the chases lie: the rounding of the sizes in main
    (multichase/multichase.c), the mixer table and the MIXED address formula
    (multichase/permutation.c). */
module Layout {
  import opened Numbers
  import opened Memory
  import opened Permutations

  const MIN_MIXERS: nat := 64

  /** The chase arguments as a value. Element x of the arena occupies `stride` bytes; the
      mixer decides at which slot of the element the cell of a given mixer row lies. */
  datatype ArenaLayout = ArenaLayout(
    base: nat, totalMemory: nat, stride: nat, tlbLocality: nat,
    nrMixers: nat, nrMixerIndices: nat, mixer: seq<nat>)
  {
    /** The sizes nest: stride divides tlb_locality, which divides total_memory. */
    predicate Rounded() {
      0 < stride && 0 < tlbLocality && 0 < totalMemory
      && tlbLocality % stride == 0 && totalMemory % tlbLocality == 0
    }

    function NrElts(): nat
      requires 0 < stride
    {
      totalMemory / stride
    }

    function NrEltsPerTlb(): nat
      requires 0 < stride
    {
      tlbLocality / stride
    }

    function NrTlbGroups(): nat
      requires 0 < tlbLocality
    {
      totalMemory / tlbLocality
    }

    /** Distance between two slots of one element. */
    function MixerScale(): nat
      requires 0 < nrMixerIndices
    {
      stride / nrMixerIndices
    }

    function Entry(row: nat, col: nat): nat {
      var i := row * nrMixers + col;
      if 0 <= i < |mixer| then mixer[i] else 0
    }

    function Column(col: nat): (c: seq<nat>)
      ensures |c| == nrMixerIndices
    {
      seq(nrMixerIndices, (row: nat) => Entry(row, col))
    }

    /** Every column of the table is a permutation of the slots. */
    ghost predicate Mixed() {
      0 < nrMixerIndices <= stride
      && (exists k: nat :: nrMixers == Pow2(k))
      && |mixer| == nrMixerIndices * nrMixers
      && forall col | 0 <= col < nrMixers :: IsPermutation(Column(col), 0)
    }

    ghost predicate Valid() {
      Rounded() && Mixed()
    }

    /** MIXED(x) for the row of the table selected by a mixer index. */
    function Cell(row: nat, x: nat): nat
      requires 0 < nrMixerIndices && 0 < nrMixers
    {
      base + x * stride + Entry(row, And(x, nrMixers - 1)) * MixerScale()
    }
  }

  lemma ColumnOf(l: ArenaLayout, x: nat)
    requires l.Mixed()
    ensures 0 < l.nrMixers && And(x, l.nrMixers - 1) < l.nrMixers
  {
    var k: nat :| l.nrMixers == Pow2(k);
    AndMask(x, k);
  }

  /** The address of a cell in plain numbers: the x-th element of the arena, and in it the slot that the
      row of the table has for x modulo the number of mixers. */
  lemma CellIs(l: ArenaLayout, row: nat, x: nat)
    requires l.Valid() && row < l.nrMixerIndices
    ensures 0 < l.nrMixers && 0 <= row * l.nrMixers + x % l.nrMixers < |l.mixer|
    ensures l.Cell(row, x) ==
            l.base + x * l.stride + l.mixer[row * l.nrMixers + x % l.nrMixers] * (l.stride / l.nrMixerIndices)
  {
    ColumnOf(l, x);
    var k: nat :| l.nrMixers == Pow2(k);
    AndMask(x, k);
    BlockIndex(row, x % l.nrMixers, l.nrMixerIndices, l.nrMixers);
  }

  /** What the mixer is for: of any nrMixers elements in a row, each takes its slot from another entry
      of the table, and every entry of the row is taken. */
  lemma EveryEntryOnce(l: ArenaLayout, row: nat, x0: nat, col: nat) returns (x: nat)
    requires l.Valid() && row < l.nrMixerIndices && col < l.nrMixers
    ensures x0 <= x < x0 + l.nrMixers && 0 <= row * l.nrMixers + col < |l.mixer|
    ensures l.Cell(row, x) == l.base + x * l.stride + l.mixer[row * l.nrMixers + col] * (l.stride / l.nrMixerIndices)
    ensures forall y | x0 <= y < x0 + l.nrMixers && y % l.nrMixers == col :: y == x
  {
    x := ElementAtColumn(x0, l.nrMixers, col);
    CellIs(l, row, x);
  }

  lemma ElementAtColumn(x0: nat, m: nat, col: nat) returns (x: nat)
    requires col < m
    ensures x0 <= x < x0 + m && x % m == col
    ensures forall y | x0 <= y < x0 + m && y % m == col :: y == x
  {
    var q, r := x0 / m, x0 % m;
    assert x0 == q * m + r;
    MulSucc(q, m);
    MulMono(0, q, m);
    x := if r <= col then q * m + col else (q + 1) * m + col;
    DivModUnique(x, m, if r <= col then q else q + 1, col);
    forall y | x0 <= y < x0 + m && y % m == col
      ensures y == x
    {
      SameColumn(x, y, m);
    }
  }

  /** Elements less than m apart are in different columns. */
  lemma SameColumn(x: nat, y: nat, m: nat)
    requires 0 < m && x % m == y % m && x < y + m && y < x + m
    ensures x == y
  {
    var a, b := x / m, y / m;
    assert x == a * m + x % m && y == b * m + y % m;
    if a < b {
      MultiplesApart(a, b, m);
    } else if b < a {
      MultiplesApart(b, a, m);
    }
  }

  /** Column c of the table is the c-th permutation that was made, from word `from` on. */
  ghost predicate MixerDrawn(l: ArenaLayout, g: Source, from: nat) {
    forall c: nat | c < l.nrMixers :: ColumnDrawn(l.Column(c), g, from, l.nrMixerIndices, c)
  }

  ghost predicate ColumnDrawn(column: seq<nat>, g: Source, from: nat, n: nat, c: nat) {
    0 <= c * n && column == g.Made(from + g.Used(c * n), n, 0)
  }

  /** In terms of the table. */
  lemma MixerEntry(l: ArenaLayout, g: Source, from: nat, row: nat, c: nat)
    requires l.Mixed() && MixerDrawn(l, g, from) && row < l.nrMixerIndices && c < l.nrMixers
    ensures 0 <= c * l.nrMixerIndices && 0 <= row * l.nrMixers + c < |l.mixer|
    ensures l.mixer[row * l.nrMixers + c] == g.Made(from + g.Used(c * l.nrMixerIndices), l.nrMixerIndices, 0)[row]
  {
    assert ColumnDrawn(l.Column(c), g, from, l.nrMixerIndices, c);
    BlockIndex(row, c, l.nrMixerIndices, l.nrMixers);
    assert l.Column(c)[row] == l.Entry(row, c);
  }

  /** A slot is an entry of a permutation, so it fits into the stride. */
  lemma SlotFits(l: ArenaLayout, row: nat, col: nat)
    requires l.Mixed() && row < l.nrMixerIndices && col < l.nrMixers
    ensures l.Entry(row, col) < l.nrMixerIndices
    ensures 0 <= l.Entry(row, col) * l.MixerScale()
    ensures l.Entry(row, col) * l.MixerScale() + l.MixerScale() <= l.stride
  {
    assert l.Column(col)[row] == l.Entry(row, col);
    SlotBound(l.Entry(row, col), l.nrMixerIndices, l.stride);
  }

  lemma SlotBound(e: nat, n: nat, stride: nat)
    requires e < n
    ensures 0 <= e * (stride / n) && e * (stride / n) + stride / n <= stride
  {
    var s := stride / n;
    DivBelow(stride, 0, n);
    MultiplesApart(e, n, s);
    MulMono(0, e, s);
    assert n * s == s * n;
  }

  /** The slot-sized object at a cell lies inside its own element, hence inside the arena. */
  lemma CellInElement(l: ArenaLayout, row: nat, x: nat)
    requires l.Valid() && row < l.nrMixerIndices && x < l.NrElts()
    ensures 0 < l.nrMixers
    ensures l.base + x * l.stride <= l.Cell(row, x)
    ensures l.Cell(row, x) + l.MixerScale() <= l.base + (x + 1) * l.stride <= l.base + l.totalMemory
  {
    ColumnOf(l, x);
    SlotFits(l, row, And(x, l.nrMixers - 1));
    assert (x + 1) * l.stride == x * l.stride + l.stride;
    MulMono(x + 1, l.NrElts(), l.stride);
    assert l.totalMemory == l.NrElts() * l.stride + l.totalMemory % l.stride;
  }

  /** Two rows of the table select different slots of the same element. */
  lemma SlotsApart(l: ArenaLayout, row: nat, row': nat, col: nat)
    requires l.Mixed() && row < l.nrMixerIndices && row' < l.nrMixerIndices && row != row'
    requires col < l.nrMixers
    ensures var s := l.MixerScale();
            l.Entry(row, col) * s + s <= l.Entry(row', col) * s || l.Entry(row', col) * s + s <= l.Entry(row, col) * s
  {
    var e, e' := l.Entry(row, col), l.Entry(row', col);
    EntriesDiffer(l, row, row', col);
    if e < e' {
      MultiplesApart(e, e', l.MixerScale());
    } else {
      MultiplesApart(e', e, l.MixerScale());
    }
  }

  lemma EntriesDiffer(l: ArenaLayout, row: nat, row': nat, col: nat)
    requires l.Mixed() && row < l.nrMixerIndices && row' < l.nrMixerIndices && row != row'
    requires col < l.nrMixers
    ensures l.Entry(row, col) != l.Entry(row', col)
  {
    var c := l.Column(col);
    assert IsPermutation(c, 0);
    assert c[row] == l.Entry(row, col) && c[row'] == l.Entry(row', col);
    assert c[row] != c[row'];
  }

  lemma MultiplesApart(e: nat, e': nat, s: nat)
    requires e < e'
    ensures e * s + s <= e' * s
  {
    MulMono(e + 1, e', s);
    assert (e + 1) * s == e * s + s;
  }

  /** Non-interference: objects of different (row, element) pairs do not overlap. */
  lemma CellsApart(l: ArenaLayout, row: nat, x: nat, row': nat, x': nat)
    requires l.Valid() && row < l.nrMixerIndices && row' < l.nrMixerIndices
    requires x < l.NrElts() && x' < l.NrElts()
    requires row != row' || x != x'
    ensures 0 < l.nrMixers
    ensures l.Cell(row, x) + l.MixerScale() <= l.Cell(row', x') || l.Cell(row', x') + l.MixerScale() <= l.Cell(row, x)
  {
    CellInElement(l, row, x);
    CellInElement(l, row', x');
    if x < x' {
      MulMono(x + 1, x', l.stride);
    } else if x' < x {
      MulMono(x' + 1, x, l.stride);
    } else {
      ColumnOf(l, x);
      SlotsApart(l, row, row', And(x, l.nrMixers - 1));
    }
  }

  /** With stride/object_size slots, a slot is at least as large as an object. */
  lemma SlotHoldsObject(stride: nat, objectSize: nat)
    requires 0 < objectSize <= stride
    ensures 0 < stride / objectSize <= stride
    ensures objectSize <= stride / (stride / objectSize)
  {
    var n := stride / objectSize;
    DivBelow(stride, 1, objectSize);
    MulMono(1, objectSize, n);
    assert n * objectSize == objectSize * n;
    DivBelow(stride, objectSize, n);
  }

  lemma RoundedCounts(l: ArenaLayout)
    requires l.Rounded()
    ensures 0 < l.NrEltsPerTlb() && 0 < l.NrTlbGroups()
    ensures 0 < l.NrElts() == l.NrTlbGroups() * l.NrEltsPerTlb()
  {
    NestedDiv(l.totalMemory, l.tlbLocality, l.stride);
    assert l.totalMemory == l.NrTlbGroups() * l.tlbLocality;
    assert l.tlbLocality == l.NrEltsPerTlb() * l.stride;
    assert l.totalMemory == l.NrElts() * l.stride;
  }

  lemma RoundDown(a: nat, n: nat)
    requires 0 < n
    ensures 0 <= a - a % n <= a < a - a % n + n && (a - a % n) % n == 0
    ensures n <= a ==> n <= a - a % n
  {
    var q := a / n;
    DivBelow(a, 0, n);
    DivBelow(a, 1, n);
    MulMono(0, q, n);
    DivModUnique(q * n, n, q, 0);
    if 1 <= q {
      MulMono(1, q, n);
    }
  }

  lemma Exact(n: nat)
    requires 0 < n
    ensures n % n == 0
  {
    DivModUnique(n, n, 1, 0);
  }

  /** tlb_locality before the total is looked at: a positive multiple of the stride. */
  function RoundedOnce(tlb: nat, stride: nat): nat
    requires 0 < stride
  {
    if tlb < stride then stride else tlb - tlb % stride
  }

  function RoundedTlb(total: nat, tlb: nat, stride: nat): nat
    requires 0 < stride
  {
    var t := RoundedOnce(tlb, stride);
    if total < t then RoundedOnce(total, stride) else t
  }

  function RoundedTotal(total: nat, tlb: nat, stride: nat): nat
    requires 0 < stride && 0 < RoundedOnce(tlb, stride)
  {
    var t := RoundedOnce(tlb, stride);
    if total < t then RoundedOnce(total, stride) else total - total % t
  }

  lemma RoundsOnce(a: nat, stride: nat)
    requires 0 < stride
    ensures var t := RoundedOnce(a, stride);
            stride <= t && t % stride == 0 && t <= (if a < stride then stride else a) < t + stride
  {
    RoundDown(a, stride);
    Exact(stride);
  }

  /** The rounded sizes in plain numbers. Both sizes are first raised to the stride. A locality that fits
      into the memory is rounded down to the stride, and the memory to the locality; otherwise both
      become the memory, rounded down to the stride. */
  ghost predicate SizesAre(total: nat, tlb: nat, stride: nat, total': nat, tlb': nat)
    requires 0 < stride
  {
    var t, m := if tlb < stride then stride else tlb, if total < stride then stride else total;
    var fitting := t - t % stride;
    if fitting <= total then tlb' == fitting && 0 < fitting && total' == total - total % fitting
    else tlb' == total' == m - m % stride
  }

  lemma SizesRounded(total: nat, tlb: nat, stride: nat)
    requires 0 < stride && 0 < total && 0 < RoundedOnce(tlb, stride)
    ensures SizesAre(total, tlb, stride, RoundedTotal(total, tlb, stride), RoundedTlb(total, tlb, stride))
  {
    Exact(stride);
    RoundDown(tlb, stride);
  }

  /** The rounded sizes nest, and nothing is rounded by more than it has to be. */
  lemma SizesRound(total: nat, tlb: nat, stride: nat)
    requires 0 < stride && 0 < total
    ensures 0 < RoundedOnce(tlb, stride)
    ensures var t, m := RoundedTlb(total, tlb, stride), RoundedTotal(total, tlb, stride);
            stride <= t && t % stride == 0 && t <= m && m % t == 0
            && m <= (if total < stride then stride else total) < m + t
            && (t != m ==> t <= (if tlb < stride then stride else tlb) < t + stride)
  {
    RoundsOnce(tlb, stride);
    RoundsOnce(total, stride);
    RoundDown(total, RoundedOnce(tlb, stride));
    Exact(RoundedOnce(total, stride));
  }

  /** Number of significant bits: the word size minus the leading zeros. */
  function BitLength(x: nat): nat {
    if x == 0 then 0 else 1 + BitLength(x / 2)
  }

  lemma {:induction false} BitLengthBounds(x: nat)
    ensures x < Pow2(BitLength(x))
    ensures 0 < x ==> Pow2(BitLength(x)) <= 2 * x
  {
    if x != 0 {
      BitLengthBounds(x / 2);
    }
  }

  /** The number of mixers: the wanted number rounded up to a power of two, at least 64. */
  function MixerCount(wanted: nat): (n: nat)
    requires 0 < wanted
    ensures exists k: nat :: n == Pow2(k)
    ensures MIN_MIXERS <= n && wanted <= n && (n != MIN_MIXERS ==> n < 2 * wanted)
  {
    BitLengthBounds(wanted - 1);
    assert MIN_MIXERS == Pow2(6);
    var n := Pow2(BitLength(wanted - 1));
    if n < MIN_MIXERS then MIN_MIXERS else n
  }

  lemma ColumnRead(l: ArenaLayout, col: nat, t: seq<nat>)
    requires |t| == l.nrMixerIndices && col < l.nrMixers
    requires |l.mixer| == l.nrMixerIndices * l.nrMixers
    requires ColumnStored(l.mixer, |t|, l.nrMixers, col, t)
    ensures l.Column(col) == t
  {
    forall j | 0 <= j < |t|
      ensures l.Column(col)[j] == t[j]
    {
      assert l.mixer[j * l.nrMixers + col] == t[j];
    }
  }

  /** struct generate_chase_common_args, filled in by main. */
  class ChaseArgs {
    var arena: Arena
    var totalMemory: nat
    var stride: nat
    var tlbLocality: nat
    var nrMixers: nat
    var generator: Generator
    var nrMixerIndices: nat
    var mixer: seq<nat>

    constructor (arena: Arena, totalMemory: nat, stride: nat, tlbLocality: nat, generator: Generator)
      ensures this.arena == arena && this.totalMemory == totalMemory && this.stride == stride
      ensures this.tlbLocality == tlbLocality && this.generator == generator
    {
      this.arena := arena;
      this.totalMemory, this.stride, this.tlbLocality := totalMemory, stride, tlbLocality;
      this.generator := generator;
      nrMixers, nrMixerIndices, mixer := 0, 0, [];
    }

    function View(): ArenaLayout
      reads this
    {
      ArenaLayout(arena.base, totalMemory, stride, tlbLocality, nrMixers, nrMixerIndices, mixer)
    }

    /** Sanity of the sizes, as main establishes it before anything is allocated. False where
        main exits: the stride cannot hold a pointer, or has too few slots for all the chases. */
    method RoundSizes(objectSize: nat, nrChases: nat) returns (ok: bool)
      requires 0 < objectSize && 0 < nrChases && 0 < totalMemory
      modifies this`tlbLocality, this`totalMemory, this`nrMixerIndices
      ensures ok <==> PTR_SIZE <= stride && nrChases <= stride / objectSize
      ensures ok ==> View().Rounded() && nrMixerIndices == stride / objectSize && 0 < nrMixerIndices <= stride
      ensures ok ==> objectSize <= View().MixerScale()
      ensures ok ==> SizesAre(old(totalMemory), old(tlbLocality), stride, totalMemory, tlbLocality)
      // nothing is rounded by more than it has to be
      ensures ok ==> totalMemory <= (if old(totalMemory) < stride then stride else old(totalMemory))
                     < totalMemory + tlbLocality
      ensures ok && tlbLocality != totalMemory ==>
                tlbLocality <= (if old(tlbLocality) < stride then stride else old(tlbLocality)) < tlbLocality + stride
    {
      if stride < PTR_SIZE {
        return false;
      }
      SizesRound(totalMemory, tlbLocality, stride);
      SizesRounded(totalMemory, tlbLocality, stride);
      if tlbLocality < stride {
        tlbLocality := stride;
      } else {
        tlbLocality := tlbLocality - tlbLocality % stride;
      }
      if totalMemory < tlbLocality {
        if totalMemory < stride {
          totalMemory := stride;
        } else {
          totalMemory := totalMemory - totalMemory % stride;
        }
        tlbLocality := totalMemory;
      } else {
        totalMemory := totalMemory - totalMemory % tlbLocality;
      }
      assert tlbLocality == RoundedTlb(old(totalMemory), old(tlbLocality), stride);
      assert totalMemory == RoundedTotal(old(totalMemory), old(tlbLocality), stride);
      nrMixerIndices := stride / objectSize;
      if nrMixerIndices < nrChases {
        return false;
      }
      DivBelow(stride, 1, objectSize);
      SlotHoldsObject(stride, objectSize);
      return true;
    }

    /** Build the mixer table: one permutation of the slots per column, stored row by row. */
    method GenerateMixer(nrMixersWanted: nat, rng: Rng)
      requires 0 < nrMixersWanted && 0 < nrMixerIndices <= stride
      modifies this`nrMixers, this`mixer, rng
      ensures View().Mixed()
      // the smallest power of two that is at least the wanted number and at least 64
      ensures MIN_MIXERS <= nrMixers && nrMixersWanted <= nrMixers
      ensures nrMixers != MIN_MIXERS ==> nrMixers < 2 * nrMixersWanted
      ensures MixerDrawn(View(), Source(generator, rng.draws), old(rng.used))
    {
      nrMixers := MixerCount(nrMixersWanted);
      var n, m := nrMixerIndices, nrMixers;
      ghost var g, from := Source(generator, rng.draws), rng.used;
      var t := new nat[n];
      MulMono(0, n, m);
      var r := new nat[n * m];
      ghost var columns: seq<seq<nat>> := [];
      var i := 0;
      while i < m
        invariant 0 <= i <= m == nrMixers && n == nrMixerIndices
        invariant |columns| == i && ColumnsStored(r[..], n, m, columns)
        invariant ColumnsDrawn(columns, g, from, n, rng.used)
      {
        ghost var used := rng.used;
        GenPermutation(generator, t, 0, n, 0, rng);
        ghost var column := t[..];
        assert t[..][0..n] == column;
        FillColumn(r, t, n, m, i, columns);
        OneMoreColumn(columns, g, from, n, used, column);
        columns := columns + [column];
        i := i + 1;
      }
      mixer := r[..];
      ColumnsRead(View(), columns, g, from, rng.used);
    }
  }

  /** The columns made so far: one after the other, n words each. */
  ghost predicate ColumnsDrawn(columns: seq<seq<nat>>, g: Source, from: nat, n: nat, used: nat) {
    0 <= |columns| * n && used == from + g.Used(|columns| * n)
    && forall c: nat | c < |columns| :: ColumnDrawn(columns[c], g, from, n, c)
  }

  lemma OneMoreColumn(columns: seq<seq<nat>>, g: Source, from: nat, n: nat, used: nat, column: seq<nat>)
    requires ColumnsDrawn(columns, g, from, n, used) && column == g.Made(used, n, 0)
    ensures ColumnsDrawn(columns + [column], g, from, n, used + g.Used(n))
  {
    MulSucc(|columns|, n);
    var more := columns + [column];
    forall c: nat | c < |more|
      ensures ColumnDrawn(more[c], g, from, n, c)
    {
      if c < |columns| {
        assert ColumnDrawn(columns[c], g, from, n, c);
      }
    }
  }

  /** The table holds the columns that were made. */
  lemma ColumnsRead(l: ArenaLayout, columns: seq<seq<nat>>, g: Source, from: nat, used: nat)
    requires |columns| == l.nrMixers && |l.mixer| == l.nrMixerIndices * l.nrMixers
    requires ColumnsStored(l.mixer, l.nrMixerIndices, l.nrMixers, columns)
    requires ColumnsDrawn(columns, g, from, l.nrMixerIndices, used)
    ensures MixerDrawn(l, g, from)
    ensures forall c | 0 <= c < l.nrMixers :: IsPermutation(l.Column(c), 0)
  {
    forall c: nat | c < l.nrMixers
      ensures IsPermutation(l.Column(c), 0) && ColumnDrawn(l.Column(c), g, from, l.nrMixerIndices, c)
    {
      ColumnRead(l, c, columns[c]);
      assert ColumnDrawn(columns[c], g, from, l.nrMixerIndices, c);
    }
  }

  /** Copy t into column i of the table, leaving the columns before it as they are. */
  method FillColumn(r: array<nat>, t: array<nat>, n: nat, m: nat, i: nat, ghost columns: seq<seq<nat>>)
    requires r != t && r.Length == n * m && t.Length == n && i < m && |columns| == i
    requires ColumnsStored(r[..], n, m, columns)
    modifies r
    ensures t[..] == old(t[..])
    ensures ColumnsStored(r[..], n, m, columns) && ColumnStored(r[..], n, m, i, t[..])
  {
    ghost var column := t[..];
    var j := 0;
    while j < n
      invariant 0 <= j <= n && t[..] == column
      invariant ColumnsStored(r[..], n, m, columns) && ColumnStored(r[..], j, m, i, column)
    {
      BlockIndex(j, i, n, m);
      ghost var before := r[..];
      r[j * m + i] := t[j];
      EntryStored(before, r[..], n, m, columns, column, j);
      j := j + 1;
    }
  }

  /** Column c of the table r starts with the first n entries of t. */
  ghost predicate ColumnStored(r: seq<nat>, n: nat, m: nat, c: nat, t: seq<nat>) {
    n <= |t| && forall j | 0 <= j < n :: 0 <= j * m + c < |r| && r[j * m + c] == t[j]
  }

  /** The first columns of the table are the given permutations. */
  ghost predicate ColumnsStored(r: seq<nat>, n: nat, m: nat, columns: seq<seq<nat>>) {
    forall c | 0 <= c < |columns| ::
      |columns[c]| == n && IsPermutation(columns[c], 0) && ColumnStored(r, n, m, c, columns[c])
  }

  /** Writing entry i leaves alone the columns and rows that do not contain it. */
  lemma OtherColumn(r: seq<nat>, r': seq<nat>, n: nat, m: nat, c: nat, t: seq<nat>, i: nat)
    requires ColumnStored(r, n, m, c, t) && c < m && |r| == |r'|
    requires forall k | 0 <= k < |r| && k != i :: r'[k] == r[k]
    requires i % m != c || n <= i / m
    ensures ColumnStored(r', n, m, c, t)
  {
    forall j | 0 <= j < n
      ensures 0 <= j * m + c < |r'| && r'[j * m + c] == t[j]
    {
      assert r[j * m + c] == t[j];
      DivModUnique(j * m + c, m, j, c);
    }
  }

  /** One more entry of the column after `columns`. */
  lemma EntryStored(r: seq<nat>, r': seq<nat>, n: nat, m: nat, columns: seq<seq<nat>>, t: seq<nat>, j: nat)
    requires ColumnsStored(r, n, m, columns) && |columns| < m && j < n <= |t|
    requires ColumnStored(r, j, m, |columns|, t)
    requires |r| == |r'| == n * m
    requires forall k | 0 <= k < |r| && k != j * m + |columns| :: r'[k] == r[k]
    requires 0 <= j * m + |columns| < |r'| && r'[j * m + |columns|] == t[j]
    ensures ColumnsStored(r', n, m, columns) && ColumnStored(r', j + 1, m, |columns|, t)
  {
    var i := |columns|;
    BlockIndex(j, i, n, m);
    forall c | 0 <= c < i
      ensures ColumnStored(r', n, m, c, columns[c])
    {
      OtherColumn(r, r', n, m, c, columns[c], j * m + i);
    }
    OtherColumn(r, r', j, m, i, t, j * m + i);
  }
}
