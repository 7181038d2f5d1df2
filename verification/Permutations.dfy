/** Permutation generation and the permutation test (multichase/permutation.c). */
module Permutations {

  /** s lists each of base, ..., base+|s|-1 exactly once. */
  ghost predicate IsPermutation(s: seq<nat>, base: nat) {
    (forall i | 0 <= i < |s| :: base <= s[i] < base + |s|) && Distinct(s)
  }

  ghost predicate Distinct(s: seq<nat>) {
    forall i, j | 0 <= i < j < |s| :: s[i] != s[j]
  }

  // ----- counting: n different values out of n are all of them

  ghost function Below(n: nat): (r: set<nat>)
    ensures forall v: nat :: v in r <==> v < n
  {
    if n == 0 then {} else Below(n - 1) + {n - 1}
  }

  lemma {:induction false} BelowSize(n: nat)
    ensures |Below(n)| == n
  {
    if n != 0 {
      BelowSize(n - 1);
    }
  }

  ghost function Values(s: seq<nat>): (r: set<nat>)
    ensures forall i | 0 <= i < |s| :: s[i] in r
    ensures forall v | v in r :: v in s
  {
    if s == [] then {} else Values(s[..|s| - 1]) + {s[|s| - 1]}
  }

  lemma {:induction false} DistinctSize(s: seq<nat>)
    requires Distinct(s)
    ensures |Values(s)| == |s|
  {
    if s != [] {
      DistinctSize(s[..|s| - 1]);
      assert s[|s| - 1] !in s[..|s| - 1];
    }
  }

  lemma SubsetOfSameSize(a: set<nat>, b: set<nat>)
    requires a <= b && |a| == |b|
    ensures a == b
  {
    assert b == a + (b - a);
  }

  /** Pigeonhole: a permutation of base, ..., base+n-1 takes every one of these values. */
  lemma PermutationCovers(s: seq<nat>, base: nat, v: nat) returns (i: nat)
    requires IsPermutation(s, base) && base <= v < base + |s|
    ensures i < |s| && s[i] == v
  {
    var shifted: seq<nat> := seq(|s|, k requires 0 <= k < |s| => s[k] - base);
    ValuesBelow(shifted);
    assert v - base in shifted;
    i :| 0 <= i < |shifted| && shifted[i] == v - base;
  }

  lemma ValuesBelow(s: seq<nat>)
    requires Distinct(s) && forall i | 0 <= i < |s| :: s[i] < |s|
    ensures forall v: nat | v < |s| :: v in s
  {
    DistinctSize(s);
    BelowSize(|s|);
    forall x | x in Values(s)
      ensures x in Below(|s|)
    {
      assert x in s;
    }
    SubsetOfSameSize(Values(s), Below(|s|));
    forall v: nat | v < |s|
      ensures v in s
    {
      assert v in Values(s);
    }
  }

  // ----- the inside-out shuffle

  /** Random word number i reduced to a number between 0 and limit, both included. */
  function Draw(draws: nat -> nat, i: nat, limit: nat): (t: nat)
    ensures t <= limit
  {
    draws(i) % (limit + 1)
  }

  /** A stream of random 64-bit words and how many of them have been used. */
  class Rng {
    const draws: nat -> nat
    var used: nat

    constructor (draws: nat -> nat)
      ensures this.draws == draws && used == 0
    {
      this.draws := draws;
      used := 0;
    }

    /** A number between 0 and limit, both included. */
    method Int(limit: nat) returns (t: nat)
      modifies this
      ensures used == old(used) + 1
      ensures t == Draw(draws, old(used), limit)
    {
      t := Draw(draws, used, limit);
      used := used + 1;
    }
  }

  /** What the generator draws for a permutation of nr elements from position `from` on. */
  function Choices(draws: nat -> nat, from: nat, nr: nat): (c: seq<nat>)
    ensures |c| == nr && ValidChoices(c)
  {
    if nr == 0 then [] else Choices(draws, from, nr - 1) + [Draw(draws, from + (nr - 1), nr - 1)]
  }

  /** Choice i is word i, counted from position `from`, reduced to a number of at most i. */
  lemma {:induction false} ChoicesAt(draws: nat -> nat, from: nat, nr: nat, i: nat)
    requires i < nr
    ensures Choices(draws, from, nr)[i] == draws(from + i) % (i + 1)
  {
    if i < nr - 1 {
      ChoicesAt(draws, from, nr - 1, i);
    }
  }

  /** Every vector of choices is drawn from some words: from itself. */
  lemma ChoicesOfWords(draws: nat -> nat, from: nat, c: seq<nat>)
    requires ValidChoices(c) && forall i | 0 <= i < |c| :: draws(from + i) == c[i]
    ensures Choices(draws, from, |c|) == c
  {
    forall i | 0 <= i < |c|
      ensures Choices(draws, from, |c|)[i] == c[i]
    {
      ChoicesAt(draws, from, |c|, i);
      SmallRemainder(c[i], i + 1);
    }
  }

  lemma SmallRemainder(x: nat, n: nat)
    requires x < n
    ensures x % n == x
  {}

  /** A stream that begins with these words. */
  function Words(c: seq<nat>): nat -> nat {
    (i: nat) => if i < |c| then c[i] else 0
  }

  ghost predicate ValidChoices(c: seq<nat>) {
    forall i | 0 <= i < |c| :: c[i] <= i
  }

  /** The permutation that the shuffle makes of a vector of choices. */
  function Shuffled(c: seq<nat>, base: nat): (s: seq<nat>)
    requires ValidChoices(c)
    ensures |s| == |c|
  {
    if c == [] then []
    else
      var n := |c| - 1;
      Placed(Shuffled(c[..n], base), c[n], base + n)
  }

  /** Append to s the element at t, and put v at t. */
  function Placed(s: seq<nat>, t: nat, v: nat): (r: seq<nat>)
    requires t <= |s|
    ensures |r| == |s| + 1
  {
    if t == |s| then s + [v] else s[t := v] + [s[t]]
  }

  /** The reverse of Placed: take out the element at t and put the last one in its place. */
  function Removed(r: seq<nat>, t: nat): (s: seq<nat>)
    requires t < |r|
    ensures |s| == |r| - 1
  {
    var n := |r| - 1;
    if t == n then r[..n] else r[..n][t := r[n]]
  }

  lemma RemovedPlaced(s: seq<nat>, t: nat, v: nat)
    requires t <= |s|
    ensures Removed(Placed(s, t, v), t) == s && Placed(s, t, v)[t] == v
  {
    assert Removed(Placed(s, t, v), t) == s;
  }

  lemma PlacedRemoved(r: seq<nat>, t: nat)
    requires t < |r|
    ensures Placed(Removed(r, t), t, r[t]) == r
  {
    assert Placed(Removed(r, t), t, r[t]) == r;
  }

  lemma PlacedPermutation(s: seq<nat>, t: nat, base: nat)
    requires IsPermutation(s, base) && t <= |s|
    ensures IsPermutation(Placed(s, t, base + |s|), base)
  {
    var r := Placed(s, t, base + |s|);
    forall i, j | 0 <= i < j < |r|
      ensures r[i] != r[j]
    {}
  }

  lemma RemovedPermutation(r: seq<nat>, t: nat, base: nat)
    requires IsPermutation(r, base) && t < |r| && r[t] == base + |r| - 1
    ensures IsPermutation(Removed(r, t), base)
  {
    var s := Removed(r, t);
    forall i | 0 <= i < |s|
      ensures base <= s[i] < base + |s|
    {
      var k := if i == t then |r| - 1 else i;
      assert s[i] == r[k] && k != t;
      assert r[k] != r[t];
    }
  }

  /** Whatever is drawn, the shuffle makes a permutation. */
  lemma {:induction false} ShuffledIsPermutation(c: seq<nat>, base: nat)
    requires ValidChoices(c)
    ensures IsPermutation(Shuffled(c, base), base)
  {
    if c != [] {
      var n := |c| - 1;
      ShuffledIsPermutation(c[..n], base);
      PlacedPermutation(Shuffled(c[..n], base), c[n], base);
    }
  }

  function IndexOf(s: seq<nat>, v: nat): (i: nat)
    requires v in s
    ensures i < |s| && s[i] == v
  {
    if s[|s| - 1] == v then |s| - 1 else IndexOf(s[..|s| - 1], v)
  }

  lemma LargestOccurs(s: seq<nat>, base: nat)
    requires IsPermutation(s, base) && s != []
    ensures base + |s| - 1 in s
  {
    var t := PermutationCovers(s, base, base + |s| - 1);
  }

  /** The choices that make the shuffle produce s. */
  ghost function ChoicesFor(s: seq<nat>, base: nat): (c: seq<nat>)
    requires IsPermutation(s, base)
    ensures |c| == |s| && ValidChoices(c)
    decreases |s|
  {
    if s == [] then []
    else
      LargestOccurs(s, base);
      var t := IndexOf(s, base + |s| - 1);
      RemovedPermutation(s, t, base);
      ChoicesFor(Removed(s, t), base) + [t]
  }

  lemma {:induction false} ChoicesRebuild(s: seq<nat>, base: nat)
    requires IsPermutation(s, base)
    ensures Shuffled(ChoicesFor(s, base), base) == s
    decreases |s|
  {
    if s != [] {
      LargestOccurs(s, base);
      var t := IndexOf(s, base + |s| - 1);
      var r := Removed(s, t);
      RemovedPermutation(s, t, base);
      ChoicesRebuild(r, base);
      ShuffledMore(ChoicesFor(r, base), t, base);
      PlacedRemoved(s, t);
    }
  }

  lemma ShuffledMore(c: seq<nat>, t: nat, base: nat)
    requires ValidChoices(c) && t <= |c|
    ensures ValidChoices(c + [t]) && Shuffled(c + [t], base) == Placed(Shuffled(c, base), t, base + |c|)
  {
    assert (c + [t])[..|c|] == c;
  }

  /** The last choice is where the largest value stands; taking it out undoes the last step. */
  lemma LastChoice(c: seq<nat>, base: nat)
    requires ValidChoices(c) && c != []
    ensures var n, s := |c| - 1, Shuffled(c, base);
            s[c[n]] == base + n && Removed(s, c[n]) == Shuffled(c[..n], base)
  {
    var n := |c| - 1;
    RemovedPlaced(Shuffled(c[..n], base), c[n], base + n);
  }

  /** Different choices make different permutations. */
  lemma {:induction false} ShuffledInjective(c: seq<nat>, d: seq<nat>, base: nat)
    requires ValidChoices(c) && ValidChoices(d)
    requires Shuffled(c, base) == Shuffled(d, base)
    ensures c == d
    decreases |c|
  {
    assert |c| == |Shuffled(c, base)| == |d|;
    if c != [] {
      var n := |c| - 1;
      ShuffledIsPermutation(c, base);
      LastChoice(c, base);
      LastChoice(d, base);
      ShuffledInjective(c[..n], d[..n], base);
      assert c == c[..n] + [c[n]] && d == d[..n] + [d[n]];
    }
  }

  /** Every permutation of base, ..., base+nr-1 comes from exactly one vector of choices
      t_i <= i, so independent uniform choices give every permutation the same chance. */
  lemma ShuffleIsBijection(s: seq<nat>, base: nat)
    requires IsPermutation(s, base)
    ensures exists c :: ValidChoices(c) && |c| == |s| && Shuffled(c, base) == s
    ensures forall c, d | ValidChoices(c) && ValidChoices(d) && Shuffled(c, base) == s && Shuffled(d, base) == s ::
              c == d
  {
    var c0 := ChoicesFor(s, base);
    ChoicesRebuild(s, base);
    assert ValidChoices(c0) && |c0| == |s| && Shuffled(c0, base) == s;
    forall c, d | ValidChoices(c) && ValidChoices(d) && Shuffled(c, base) == s && Shuffled(d, base) == s
      ensures c == d
    {
      ShuffledInjective(c, d, base);
    }
  }

  /** Every permutation is made of some words, as a part of any longer stream. */
  lemma PermutationDrawn(draws: nat -> nat, from: nat, s: seq<nat>, base: nat)
    requires IsPermutation(s, base) && forall i | 0 <= i < |s| :: draws(from + i) == ChoicesFor(s, base)[i]
    ensures Shuffled(Choices(draws, from, |s|), base) == s
  {
    ChoicesOfWords(draws, from, ChoicesFor(s, base));
    ChoicesRebuild(s, base);
  }

  /** A worked example: four elements and the choices 0, 1, 0, 3. */
  lemma ShuffleOfExample()
    ensures Shuffled([0, 1, 0, 3], 0) == [2, 1, 0, 3]
  {
    ShuffledMore([], 0, 0);
    ShuffledMore([0], 1, 0);
    ShuffledMore([0, 1], 0, 0);
    ShuffledMore([0, 1, 0], 3, 0);
    assert [] + [0] == [0] && [0] + [1] == [0, 1] && [0, 1] + [0] == [0, 1, 0];
    assert [0, 1, 0] + [3] == [0, 1, 0, 3];
  }

  /** The first n rounds of the shuffle with choices drawn from position `from` on. */
  ghost function Drawn(draws: nat -> nat, from: nat, n: nat, base: nat): (s: seq<nat>)
    ensures |s| == n
  {
    if n == 0 then [] else Placed(Drawn(draws, from, n - 1, base), Draw(draws, from + (n - 1), n - 1), base + (n - 1))
  }

  lemma OneMore(draws: nat -> nat, from: nat, n: nat, base: nat) returns (t: nat)
    requires 0 < n
    ensures t < n && Choices(draws, from, n) == Choices(draws, from, n - 1) + [t]
    ensures Drawn(draws, from, n, base) == Placed(Drawn(draws, from, n - 1, base), t, base + (n - 1))
  {
    t := Draw(draws, from + (n - 1), n - 1);
  }

  /** Round by round or all choices at once: the same permutation. */
  lemma {:induction false} DrawnIsShuffled(draws: nat -> nat, from: nat, n: nat, base: nat)
    ensures Drawn(draws, from, n, base) == Shuffled(Choices(draws, from, n), base)
  {
    if n != 0 {
      DrawnIsShuffled(draws, from, n - 1, base);
      var c := Choices(draws, from, n - 1);
      var t := OneMore(draws, from, n, base);
      ShuffledMore(c, t, base);
    }
  }

  /** A random permutation of base, ..., base+nr-1 in perm[lo..lo+nr], made in place. */
  method GenRandomPermutation(perm: array<nat>, lo: nat, nr: nat, base: nat, rng: Rng)
    requires lo + nr <= perm.Length
    modifies perm, rng
    ensures perm[..][lo..lo + nr] == Shuffled(Choices(rng.draws, old(rng.used), nr), base)
    ensures rng.used == old(rng.used) + nr
    ensures forall k | 0 <= k < perm.Length && !(lo <= k < lo + nr) :: perm[k] == old(perm[k])
  {
    ghost var draws, from := rng.draws, rng.used;
    var i := 0;
    while i < nr
      invariant 0 <= i <= nr && rng.used == from + i
      invariant DrawnSoFar(perm[..], lo, draws, from, i, base)
      invariant forall k | 0 <= k < perm.Length && !(lo <= k < lo + i) :: perm[k] == old(perm[k])
    {
      ghost var s := Drawn(draws, from, i, base);
      ShuffleOne(perm, lo, i, base, rng, s);
      i := i + 1;
    }
    DrawnInSlice(perm[..], lo, draws, from, nr, base);
  }

  /** p holds the first n rounds from position lo on. */
  ghost predicate DrawnSoFar(p: seq<nat>, lo: nat, draws: nat -> nat, from: nat, n: nat, base: nat) {
    SliceIs(p, lo, Drawn(draws, from, n, base))
  }

  lemma DrawnInSlice(p: seq<nat>, lo: nat, draws: nat -> nat, from: nat, nr: nat, base: nat)
    requires DrawnSoFar(p, lo, draws, from, nr, base)
    ensures p[lo..lo + nr] == Shuffled(Choices(draws, from, nr), base)
  {
    SliceEquals(p, lo, Drawn(draws, from, nr, base));
    DrawnIsShuffled(draws, from, nr, base);
  }

  /** p holds s from position lo on. */
  ghost predicate SliceIs(p: seq<nat>, lo: nat, s: seq<nat>) {
    lo + |s| <= |p| && forall k | 0 <= k < |s| :: s[k] == p[lo + k]
  }

  lemma SliceEquals(p: seq<nat>, lo: nat, s: seq<nat>)
    requires SliceIs(p, lo, s)
    ensures p[lo..lo + |s|] == s
  {}

  /** One round of the shuffle: base+i takes a random place among the first i+1. */
  method ShuffleOne(perm: array<nat>, lo: nat, i: nat, base: nat, rng: Rng, ghost s: seq<nat>)
    requires lo + i < perm.Length && |s| == i && SliceIs(perm[..], lo, s)
    modifies perm, rng
    ensures rng.used == old(rng.used) + 1
    ensures SliceIs(perm[..], lo, Placed(s, Draw(rng.draws, old(rng.used), i), base + i))
    ensures forall k | 0 <= k < perm.Length && !(lo <= k < lo + i + 1) :: perm[k] == old(perm[k])
  {
    ghost var before := perm[..];
    var t := rng.Int(i);
    perm[lo + i] := perm[lo + t];
    perm[lo + t] := base + i;
    PlacedInSlice(before, perm[..], lo, s, t, base + i);
  }

  lemma PlacedInSlice(p: seq<nat>, q: seq<nat>, lo: nat, s: seq<nat>, t: nat, v: nat)
    requires SliceIs(p, lo, s) && lo + |s| < |p| == |q| && t <= |s|
    requires q[lo + t] == v && (t < |s| ==> q[lo + |s|] == p[lo + t])
    requires forall k | 0 <= k < |p| && k != lo + t && k != lo + |s| :: q[k] == p[k]
    ensures SliceIs(q, lo, Placed(s, t, v))
  {
    var r := Placed(s, t, v);
    forall k | 0 <= k < |r|
      ensures r[k] == q[lo + k]
    {
      if k != t && k != |s| {
        assert s[k] == p[lo + k];
      }
    }
  }

  /** base, ..., base+nr-1 in this order. */
  method GenOrderedPermutation(perm: array<nat>, lo: nat, nr: nat, base: nat)
    requires lo + nr <= perm.Length
    modifies perm
    ensures forall k | lo <= k < lo + nr :: perm[k] == base + (k - lo)
    ensures forall k | 0 <= k < perm.Length && !(lo <= k < lo + nr) :: perm[k] == old(perm[k])
  {
    var i := 0;
    while i < nr
      invariant 0 <= i <= nr
      invariant forall k | lo <= k < lo + i :: perm[k] == base + (k - lo)
      invariant forall k | 0 <= k < perm.Length && !(lo <= k < lo + i) :: perm[k] == old(perm[k])
    {
      perm[lo + i] := base + i;
      i := i + 1;
    }
  }

  /** The function pointer gen_permutation of the chase arguments. */
  datatype Generator = Random | Ordered

  /** A generator together with the words that it draws from. */
  datatype Source = Source(generator: Generator, draws: nat -> nat) {
    /** The permutation of base, ..., base+nr-1 made from word number `from` on. */
    function Made(from: nat, nr: nat, base: nat): (s: seq<nat>)
      ensures |s| == nr
    {
      match generator
      case Random => Shuffled(Choices(draws, from, nr), base)
      case Ordered => seq(nr, k requires 0 <= k < nr => base + k)
    }

    /** How many words that takes. */
    function Used(nr: nat): nat {
      if generator.Random? then nr else 0
    }
  }

  lemma MadeIsPermutation(g: Source, from: nat, nr: nat, base: nat)
    ensures IsPermutation(g.Made(from, nr, base), base)
  {
    if g.generator.Random? {
      ShuffledIsPermutation(Choices(g.draws, from, nr), base);
    }
  }

  /** Through the pointer: perm[lo..lo+nr] becomes a permutation of base, ..., base+nr-1. */
  method GenPermutation(generator: Generator, perm: array<nat>, lo: nat, nr: nat, base: nat, rng: Rng)
    requires lo + nr <= perm.Length
    modifies perm, rng
    ensures IsPermutation(perm[..][lo..lo + nr], base)
    ensures generator.Random? ==> perm[..][lo..lo + nr] == Shuffled(Choices(rng.draws, old(rng.used), nr), base)
    ensures generator.Ordered? ==> forall k | lo <= k < lo + nr :: perm[k] == base + (k - lo)
    ensures perm[..][lo..lo + nr] == Source(generator, rng.draws).Made(old(rng.used), nr, base)
    ensures rng.used == old(rng.used) + Source(generator, rng.draws).Used(nr)
    ensures forall k | 0 <= k < perm.Length && !(lo <= k < lo + nr) :: perm[k] == old(perm[k])
  {
    match generator
    case Random =>
      ghost var c := Choices(rng.draws, rng.used, nr);
      GenRandomPermutation(perm, lo, nr, base, rng);
      ShuffledIsPermutation(c, base);
    case Ordered =>
      GenOrderedPermutation(perm, lo, nr, base);
  }

  // ----- the permutation test

  /** 1u << k */
  function TestBit(k: nat): bv8
    requires k < 8
  {
    if k == 0 then 1 else if k == 1 then 2 else if k == 2 then 4 else if k == 3 then 8
    else if k == 4 then 16 else if k == 5 then 32 else if k == 6 then 64 else 128
  }

  predicate HasBit(v: bv8, k: nat)
    requires k < 8
  {
    v & TestBit(k) != 0
  }

  lemma SetBit(v: bv8, k: nat, j: nat)
    requires k < 8 && j < 8
    ensures HasBit(v | TestBit(k), j) <==> j == k || HasBit(v, j)
  {}

  lemma NoBits(k: nat)
    requires k < 8
    ensures !HasBit(0, k)
  {}

  /** Only 0xff has all eight bits. */
  lemma FullByte(v: bv8) returns (k: nat)
    ensures k < 8
    ensures v == 0xff <==> HasBit(v, k)
    ensures v == 0xff ==> forall j | 0 <= j < 8 :: HasBit(v, j)
  {
    k := if !HasBit(v, 0) then 0 else if !HasBit(v, 1) then 1 else if !HasBit(v, 2) then 2
         else if !HasBit(v, 3) then 3 else if !HasBit(v, 4) then 4 else if !HasBit(v, 5) then 5
         else if !HasBit(v, 6) then 6 else 7;
  }

  /** Only (1u << m) - 1 has exactly the bits below m. */
  lemma LowByte(v: bv8, m: nat) returns (k: nat)
    requires 0 < m < 8
    ensures k < 8
    ensures v == TestBit(m) - 1 <==> (HasBit(v, k) <==> k < m)
    ensures v == TestBit(m) - 1 ==> forall j | 0 <= j < 8 :: HasBit(v, j) <==> j < m
  {
    k := if HasBit(v, 0) != (0 < m) then 0 else if HasBit(v, 1) != (1 < m) then 1
         else if HasBit(v, 2) != (2 < m) then 2 else if HasBit(v, 3) != (3 < m) then 3
         else if HasBit(v, 4) != (4 < m) then 4 else if HasBit(v, 5) != (5 < m) then 5
         else if HasBit(v, 6) != (6 < m) then 6 else 7;
  }

  function VecLen(n: nat): nat { (n + 7) / 8 }

  /** The bits set in v are exactly the values occurring in s. */
  ghost predicate Records(v: seq<bv8>, s: seq<nat>) {
    forall x: nat | x < 8 * |v| :: HasBit(v[x / 8], x % 8) <==> x in s
  }

  lemma RecordsNothing(v: seq<bv8>)
    requires forall i | 0 <= i < |v| :: v[i] == 0
    ensures Records(v, [])
  {
    forall x: nat | x < 8 * |v|
      ensures !HasBit(v[x / 8], x % 8)
    {
      NoBits(x % 8);
    }
  }

  lemma RecordsMore(v: seq<bv8>, s: seq<nat>, y: nat)
    requires Records(v, s) && y < 8 * |v|
    ensures Records(v[y / 8 := v[y / 8] | TestBit(y % 8)], s + [y])
  {
    var w := v[y / 8 := v[y / 8] | TestBit(y % 8)];
    forall x: nat | x < 8 * |v|
      ensures HasBit(w[x / 8], x % 8) <==> x in s + [y]
    {
      SetBit(v[y / 8], y % 8, x % 8);
      assert HasBit(v[x / 8], x % 8) <==> x in s;
    }
  }

  /** A value of the range that does not occur refutes the permutation. */
  lemma MissingValue(s: seq<nat>, x: nat)
    requires x < |s| && x !in s
    ensures !IsPermutation(s, 0)
  {
    if IsPermutation(s, 0) {
      var i := PermutationCovers(s, 0, x);
      assert false;
    }
  }

  /** A byte of the vector that is not full, when all of its values are in range. */
  lemma GapInByte(v: seq<bv8>, s: seq<nat>, i: nat)
    requires Records(v, s) && |v| == VecLen(|s|) && i < |s| / 8 && v[i] != 0xff
    ensures !IsPermutation(s, 0)
  {
    var b := FullByte(v[i]);
    var x := 8 * i + b;
    assert x / 8 == i && x % 8 == b;
    MissingValue(s, x);
  }

  /** A last, partial byte that differs from the mask of the remaining values. */
  lemma GapInLastByte(v: seq<bv8>, s: seq<nat>)
    requires Records(v, s) && |v| == VecLen(|s|)
    requires |s| % 8 != 0 && v[|v| - 1] != TestBit(|s| % 8) - 1
    ensures !IsPermutation(s, 0)
  {
    var b := LowByte(v[|v| - 1], |s| % 8);
    var x := 8 * (|v| - 1) + b;
    assert x / 8 == |v| - 1 && x % 8 == b;
    if b < |s| % 8 {
      MissingValue(s, x);
    } else {
      assert x in s;
    }
  }

  /** With no gap, nothing beyond the range was recorded. */
  lemma NoGap(v: seq<bv8>, s: seq<nat>)
    requires Records(v, s) && |v| == VecLen(|s|) && Distinct(s)
    requires forall i | 0 <= i < |s| :: s[i] < 8 * |v|
    requires |s| % 8 != 0 ==> v[|v| - 1] == TestBit(|s| % 8) - 1
    ensures IsPermutation(s, 0)
  {
    forall k | 0 <= k < |s|
      ensures s[k] < |s|
    {
      var x := s[k];
      assert HasBit(v[x / 8], x % 8);
      if |s| % 8 != 0 && x / 8 == |v| - 1 {
        var b := LowByte(v[|v| - 1], |s| % 8);
        assert x % 8 < |s| % 8;
      }
    }
  }

  /** The bit-vector test answers exactly whether perm is a permutation of 0, ..., nr_elts-1,
      for all values that fall inside the bit vector. */
  method IsAPermutation(perm: seq<nat>) returns (ok: bool)
    requires forall i | 0 <= i < |perm| :: perm[i] < 8 * VecLen(|perm|)
    ensures ok <==> IsPermutation(perm, 0)
  {
    var nrElts := |perm|;
    var vecLen := (nrElts + 7) / 8;
    var vec := new bv8[vecLen](_ => 0);
    ok := MarkValues(perm, vec);
    if !ok {
      return;
    }
    var i := 0;
    while i < nrElts / 8
      invariant 0 <= i <= nrElts / 8
      invariant Records(vec[..], perm)
    {
      if vec[i] != 0xff {
        GapInByte(vec[..], perm, i);
        return false;
      }
      i := i + 1;
    }
    if nrElts % 8 != 0 {
      if vec[vecLen - 1] != TestBit(nrElts % 8) - 1 {
        GapInLastByte(vec[..], perm);
        return false;
      }
    }
    NoGap(vec[..], perm);
    return true;
  }

  /** First loop: set the bit of every value; false at the first value whose bit is set already. */
  method MarkValues(perm: seq<nat>, vec: array<bv8>) returns (ok: bool)
    requires vec.Length == VecLen(|perm|) && forall i | 0 <= i < vec.Length :: vec[i] == 0
    requires forall i | 0 <= i < |perm| :: perm[i] < 8 * vec.Length
    modifies vec
    ensures ok <==> Distinct(perm)
    ensures ok ==> Records(vec[..], perm)
  {
    RecordsNothing(vec[..]);
    assert perm[..0] == [];
    var i := 0;
    while i < |perm|
      invariant 0 <= i <= |perm| && Marked(vec[..], perm, i)
    {
      var elt := perm[i] / 8;
      var bit := TestBit(perm[i] % 8);
      MarkOne(vec[..], perm, i);
      if vec[elt] & bit != 0 {
        return false;
      }
      vec[elt] := vec[elt] | bit;
      i := i + 1;
    }
    assert perm[..|perm|] == perm;
    return true;
  }

  /** The first i values are different, and recorded in v. */
  ghost predicate Marked(v: seq<bv8>, s: seq<nat>, i: nat)
    requires i <= |s|
  {
    Distinct(s[..i]) && Records(v, s[..i])
  }

  /** The bit of value i is set exactly if the value occurred before; otherwise it is set now. */
  lemma MarkOne(v: seq<bv8>, s: seq<nat>, i: nat)
    requires i < |s| && s[i] < 8 * |v| && Marked(v, s, i)
    ensures HasBit(v[s[i] / 8], s[i] % 8) ==> !Distinct(s)
    ensures !HasBit(v[s[i] / 8], s[i] % 8) ==> Marked(v[s[i] / 8 := v[s[i] / 8] | TestBit(s[i] % 8)], s, i + 1)
  {
    var t := s[..i];
    assert s[..i + 1] == t + [s[i]];
    assert HasBit(v[s[i] / 8], s[i] % 8) <==> s[i] in t;
    if s[i] in t {
      var k :| 0 <= k < i && t[k] == s[i];
      assert s[k] == s[i];
    } else {
      RecordsMore(v, t, s[i]);
    }
  }
}
