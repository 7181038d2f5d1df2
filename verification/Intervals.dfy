/** Interval lists (experiments/triad_partition_controlled/analyze.py): merge, intersect and
    duration. An interval (a, b) stands for the instants a <= x < b; times are whole nanoseconds. */
module Intervals {

  type Interval = (int, int)

  predicate Inside(v: Interval, x: int) {
    v.0 <= x < v.1
  }

  /** Instant x is covered by some interval of the list. */
  ghost predicate Covers(s: seq<Interval>, x: int) {
    exists i :: 0 <= i < |s| && Inside(s[i], x)
  }

  /** The normal form: non-empty intervals in ascending order, with a gap between neighbours. */
  ghost predicate Normal(s: seq<Interval>) {
    (forall i | 0 <= i < |s| :: s[i].0 < s[i].1)
    && forall i, j | 0 <= i < j < |s| :: s[i].1 < s[j].0
  }

  /** The normal form is canonical: lists in normal form that cover the same instants are equal. */
  lemma {:induction false} NormalIsCanonical(s: seq<Interval>, t: seq<Interval>)
    requires Normal(s) && Normal(t)
    requires forall x :: Covers(s, x) <==> Covers(t, x)
    ensures s == t
    decreases |s|
  {
    assert t != [] ==> Inside(t[0], t[0].0) && Covers(t, t[0].0);
    if s != [] {
      assert Inside(s[0], s[0].0) && Covers(s, s[0].0);
      FirstCovered(s, t[0].0);
      FirstCovered(t, s[0].0);
      assert s[0].0 == t[0].0;
      EndUncovered(s);
      EndUncovered(t);
      FirstEnd(s, t);
      FirstEnd(t, s);
      assert s[0] == t[0];
      forall x
        ensures Covers(s[1..], x) <==> Covers(t[1..], x)
      {
        TailCovers(s, x);
        TailCovers(t, x);
      }
      NormalIsCanonical(s[1..], t[1..]);
      assert s == [s[0]] + s[1..] && t == [t[0]] + t[1..];
    }
  }

  lemma FirstCovered(s: seq<Interval>, x: int)
    requires Normal(s) && Covers(s, x)
    ensures s != [] && s[0].0 <= x
  {}

  lemma EndUncovered(s: seq<Interval>)
    requires Normal(s) && s != []
    ensures !Covers(s, s[0].1)
  {}

  lemma FirstEnd(s: seq<Interval>, t: seq<Interval>)
    requires Normal(s) && Normal(t) && s != [] && t != [] && s[0].0 == t[0].0
    requires !Covers(t, t[0].1)
    requires forall x :: Covers(s, x) <==> Covers(t, x)
    ensures s[0].1 <= t[0].1
  {
    if t[0].1 < s[0].1 {
      assert Inside(s[0], t[0].1);
    }
  }

  lemma TailCovers(s: seq<Interval>, x: int)
    requires Normal(s) && s != []
    ensures Covers(s[1..], x) <==> Covers(s, x) && s[0].1 <= x
  {
    if Covers(s[1..], x) {
      var i :| 0 <= i < |s[1..]| && Inside(s[1..][i], x);
      assert Inside(s[i + 1], x);
    }
    if Covers(s, x) && s[0].1 <= x {
      var i :| 0 <= i < |s| && Inside(s[i], x);
      assert Inside(s[1..][i - 1], x);
    }
  }

  // ----- sorting (Python's sorted on pairs)

  predicate Before(v: Interval, w: Interval) {
    v.0 < w.0 || (v.0 == w.0 && v.1 <= w.1)
  }

  ghost predicate Ascending(s: seq<Interval>) {
    forall i, j | 0 <= i < j < |s| :: Before(s[i], s[j])
  }

  function Insert(v: Interval, s: seq<Interval>): (r: seq<Interval>)
    ensures multiset(r) == multiset(s) + multiset{v}
  {
    if s == [] then [v]
    else if Before(v, s[0]) then [v] + s
    else
      assert s == [s[0]] + s[1..];
      [s[0]] + Insert(v, s[1..])
  }

  function Sorted(s: seq<Interval>): (r: seq<Interval>)
    ensures multiset(r) == multiset(s)
  {
    if s == [] then []
    else
      assert s == [s[0]] + s[1..];
      Insert(s[0], Sorted(s[1..]))
  }

  lemma {:induction false} InsertAscending(v: Interval, s: seq<Interval>)
    requires Ascending(s)
    ensures Ascending(Insert(v, s))
  {
    if s != [] && !Before(v, s[0]) {
      InsertAscending(v, s[1..]);
      var r := Insert(v, s[1..]);
      forall i | 0 <= i < |r|
        ensures Before(s[0], r[i])
      {
        assert r[i] in multiset(r);
        assert r[i] == v || r[i] in s[1..];
      }
    }
  }

  lemma {:induction false} SortedAscending(s: seq<Interval>)
    ensures Ascending(Sorted(s))
  {
    if s != [] {
      SortedAscending(s[1..]);
      InsertAscending(s[0], Sorted(s[1..]));
    }
  }

  lemma SortedCovers(s: seq<Interval>, x: int)
    ensures Covers(Sorted(s), x) <==> Covers(s, x)
  {
    SameElements(s, Sorted(s), x);
    SameElements(Sorted(s), s, x);
  }

  lemma SameElements(s: seq<Interval>, t: seq<Interval>, x: int)
    requires multiset(s) == multiset(t)
    ensures Covers(s, x) ==> Covers(t, x)
  {
    if Covers(s, x) {
      var i :| 0 <= i < |s| && Inside(s[i], x);
      assert s[i] in multiset(s);
      assert s[i] in t;
      var j :| 0 <= j < |t| && t[j] == s[i];
      assert Inside(t[j], x);
    }
  }

  // ----- merge

  /** The merged list covers exactly what the list covers, in normal form. */
  method Merge(intervals: seq<Interval>) returns (result: seq<Interval>)
    ensures Normal(result)
    ensures forall x :: Covers(result, x) <==> Covers(intervals, x)
  {
    var s := Sorted(intervals);
    SortedAscending(intervals);
    result := [];
    var i := 0;
    while i < |s|
      invariant 0 <= i <= |s| && MergedSoFar(result, s, i)
    {
      var (a, b) := s[i];
      ghost var before := result;
      if a < b {
        if result != [] && a <= result[|result| - 1].1 {
          var last := result[|result| - 1];
          result := result[..|result| - 1] + [(last.0, if b < last.1 then last.1 else b)];
        } else {
          result := result + [(a, b)];
        }
      }
      MergeStep(before, result, s, i);
      i := i + 1;
    }
    MergedAll(result, s, intervals);
  }

  /** result is the normal form of the first i intervals of the ascending list s. */
  ghost predicate MergedSoFar(result: seq<Interval>, s: seq<Interval>, i: nat)
    requires i <= |s|
  {
    Ascending(s) && Normal(result)
    && (forall x :: Covers(result, x) <==> Covers(s[..i], x))
    && forall k | 0 <= k < |result| :: i < |s| ==> result[k].0 <= s[i].0
  }

  /** v starts inside the last interval of the list, or at its end. */
  predicate StartsWithin(s: seq<Interval>, v: Interval) {
    s != [] && v.0 <= s[|s| - 1].1
  }

  lemma MergeStep(before: seq<Interval>, after: seq<Interval>, s: seq<Interval>, i: nat)
    requires i < |s| && MergedSoFar(before, s, i)
    requires s[i].1 <= s[i].0 ==> after == before
    requires s[i].0 < s[i].1 && StartsWithin(before, s[i]) ==>
               var last := before[|before| - 1];
               after == before[..|before| - 1] + [(last.0, if s[i].1 < last.1 then last.1 else s[i].1)]
    requires s[i].0 < s[i].1 && !StartsWithin(before, s[i]) ==> after == before + [s[i]]
    ensures MergedSoFar(after, s, i + 1)
  {
    if s[i].1 <= s[i].0 {
      assert forall x :: !Inside(s[i], x);
    } else if StartsWithin(before, s[i]) {
      AddTouching(before, after, s[i]);
    } else {
      AddApart(before, s[i]);
    }
    MergedMore(before, after, s, i);
  }

  lemma MergedMore(before: seq<Interval>, after: seq<Interval>, s: seq<Interval>, i: nat)
    requires i < |s| && MergedSoFar(before, s, i)
    requires Normal(after) && forall k | 0 <= k < |after| :: after[k].0 <= s[i].0
    requires forall x :: Covers(after, x) <==> Covers(before, x) || Inside(s[i], x)
    ensures MergedSoFar(after, s, i + 1)
  {
    assert s[..i + 1] == s[..i] + [s[i]];
    AddInterval(s[..i], before, after, s[i]);
    assert i + 1 < |s| ==> Before(s[i], s[i + 1]);
  }

  lemma MergedAll(result: seq<Interval>, s: seq<Interval>, intervals: seq<Interval>)
    requires MergedSoFar(result, s, |s|) && s == Sorted(intervals)
    ensures Normal(result)
    ensures forall x :: Covers(result, x) <==> Covers(intervals, x)
  {
    assert s[..|s|] == s;
    forall x
      ensures Covers(result, x) <==> Covers(intervals, x)
    {
      SortedCovers(intervals, x);
    }
  }

  lemma CoversAppend(s: seq<Interval>, v: Interval, x: int)
    ensures Covers(s + [v], x) <==> Covers(s, x) || Inside(v, x)
  {
    if Covers(s, x) {
      var i :| 0 <= i < |s| && Inside(s[i], x);
      assert Inside((s + [v])[i], x);
    }
    if Inside(v, x) {
      assert Inside((s + [v])[|s|], x);
    }
    if Covers(s + [v], x) {
      var i :| 0 <= i < |s + [v]| && Inside((s + [v])[i], x);
      assert i < |s| ==> Inside(s[i], x);
    }
  }

  lemma AddInterval(s: seq<Interval>, before: seq<Interval>, after: seq<Interval>, v: Interval)
    requires forall x :: Covers(before, x) <==> Covers(s, x)
    requires forall x :: Covers(after, x) <==> Covers(before, x) || Inside(v, x)
    ensures forall x :: Covers(after, x) <==> Covers(s + [v], x)
  {
    forall x
      ensures Covers(after, x) <==> Covers(s + [v], x)
    {
      CoversAppend(s, v, x);
    }
  }

  lemma AddApart(before: seq<Interval>, v: Interval)
    ensures forall x :: Covers(before + [v], x) <==> Covers(before, x) || Inside(v, x)
  {
    forall x
      ensures Covers(before + [v], x) <==> Covers(before, x) || Inside(v, x)
    {
      CoversAppend(before, v, x);
    }
  }

  /** Extending the last interval by one that starts inside it or at its end. */
  lemma AddTouching(before: seq<Interval>, after: seq<Interval>, v: Interval)
    requires before != [] && v.0 < v.1
    requires var last := before[|before| - 1];
             last.0 <= v.0 <= last.1 && last.0 < last.1
             && after == before[..|before| - 1] + [(last.0, if v.1 < last.1 then last.1 else v.1)]
    ensures forall x :: Covers(after, x) <==> Covers(before, x) || Inside(v, x)
  {
    var init, last := before[..|before| - 1], before[|before| - 1];
    assert before == init + [last];
    forall x
      ensures Covers(after, x) <==> Covers(before, x) || Inside(v, x)
    {
      CoversAppend(init, last, x);
      CoversAppend(init, after[|after| - 1], x);
    }
  }

  // ----- intersect

  function Max(a: int, b: int): int { if a < b then b else a }
  function Min(a: int, b: int): int { if a < b then a else b }

  /** Instants common to both lists. */
  ghost predicate Common(left: seq<Interval>, right: seq<Interval>, x: int) {
    Covers(left, x) && Covers(right, x)
  }

  /** The intersection of two lists in normal form: exactly the common instants, in normal form. */
  method Intersect(left: seq<Interval>, right: seq<Interval>) returns (result: seq<Interval>)
    requires Normal(left) && Normal(right)
    ensures Normal(result)
    ensures forall x :: Covers(result, x) <==> Common(left, right, x)
  {
    result := [];
    var i, j := 0, 0;
    assert left[0..] == left && right[0..] == right;
    while i < |left| && j < |right|
      invariant 0 <= i <= |left| && 0 <= j <= |right| && Normal(result)
      invariant Covered(result, left, right, i, j)
      invariant result != [] && i < |left| && j < |right| ==> result[|result| - 1].1 < Max(left[i].0, right[j].0)
      decreases |left| - i + |right| - j
    {
      var a := Max(left[i].0, right[j].0);
      var b := Min(left[i].1, right[j].1);
      ghost var before := result;
      if a < b {
        result := result + [(a, b)];
      }
      IntersectStep(before, result, left, right, i, j);
      if left[i].1 < right[j].1 {
        i := i + 1;
      } else {
        j := j + 1;
      }
    }
    assert left[|left|..] == [] && right[|right|..] == [];
  }

  /** What result covers, together with what the rests of the lists have in common, is the intersection. */
  ghost predicate Covered(result: seq<Interval>, left: seq<Interval>, right: seq<Interval>, i: nat, j: nat)
    requires i <= |left| && j <= |right|
  {
    forall x :: Covers(result, x) || Common(left[i..], right[j..], x) <==> Common(left, right, x)
  }

  /** One round keeps the account: the overlap of the heads is added, the head that ends first is dropped. */
  lemma IntersectStep(before: seq<Interval>, after: seq<Interval>, left: seq<Interval>, right: seq<Interval>, i: nat,
                      j: nat)
    requires i < |left| && j < |right| && Normal(left) && Normal(right) && Covered(before, left, right, i, j)
    requires var v := (Max(left[i].0, right[j].0), Min(left[i].1, right[j].1));
             after == if v.0 < v.1 then before + [v] else before
    ensures if left[i].1 < right[j].1 then Covered(after, left, right, i + 1, j)
            else Covered(after, left, right, i, j + 1)
  {
    var v := (Max(left[i].0, right[j].0), Min(left[i].1, right[j].1));
    var rest, rest' := left[i..], right[j..];
    AddApart(before, v);
    OverlapStep(rest, rest');
    assert rest[1..] == left[i + 1..] && rest'[1..] == right[j + 1..];
    assert forall x :: Covers(after, x) <==> Covers(before, x) || Inside(v, x);
  }

  /** One round: the overlap of the two first intervals, and whichever ends first is dropped. */
  lemma OverlapStep(left: seq<Interval>, right: seq<Interval>)
    requires Normal(left) && Normal(right) && left != [] && right != []
    ensures var v := (Max(left[0].0, right[0].0), Min(left[0].1, right[0].1));
            var left', right' := if left[0].1 < right[0].1 then left[1..] else left,
                                 if left[0].1 < right[0].1 then right else right[1..];
            forall x :: Common(left, right, x) <==> Inside(v, x) || Common(left', right', x)
  {
    forall x
      ensures var v := (Max(left[0].0, right[0].0), Min(left[0].1, right[0].1));
              var left', right' := if left[0].1 < right[0].1 then left[1..] else left,
                                   if left[0].1 < right[0].1 then right else right[1..];
              Common(left, right, x) <==> Inside(v, x) || Common(left', right', x)
    {
      FirstOrTail(left, x);
      FirstOrTail(right, x);
    }
  }

  /** An instant of a normal list lies in its first interval, or in a later one and beyond the end of the first. */
  lemma FirstOrTail(s: seq<Interval>, x: int)
    requires Normal(s) && s != []
    ensures Covers(s, x) <==> Inside(s[0], x) || Covers(s[1..], x)
    ensures Covers(s[1..], x) ==> s[0].1 < x
  {
    TailCovers(s, x);
    if Covers(s[1..], x) {
      var i :| 0 <= i < |s[1..]| && Inside(s[1..][i], x);
      assert s[1..][i] == s[i + 1];
    }
  }

  // ----- duration

  /** The instants from a up to, but not including, b. */
  ghost function Range(a: int, b: int): (r: set<int>)
    ensures forall x :: x in r <==> a <= x < b
    decreases b - a
  {
    if b <= a then {} else Range(a, b - 1) + {b - 1}
  }

  lemma {:induction false} RangeSize(a: int, b: int)
    ensures |Range(a, b)| == if b <= a then 0 else b - a
    decreases b - a
  {
    if a < b {
      RangeSize(a, b - 1);
    }
  }

  /** The set of covered instants. */
  ghost function Points(s: seq<Interval>): (r: set<int>)
    ensures forall x :: x in r <==> Covers(s, x)
  {
    if s == [] then {}
    else
      assert s == s[..|s| - 1] + [s[|s| - 1]];
      assert forall x :: Covers(s, x) <==> Covers(s[..|s| - 1], x) || Inside(s[|s| - 1], x) by {
        AddApart(s[..|s| - 1], s[|s| - 1]);
      }
      Points(s[..|s| - 1]) + Range(s[|s| - 1].0, s[|s| - 1].1)
  }

  function TotalLength(s: seq<Interval>): int {
    if s == [] then 0 else TotalLength(s[..|s| - 1]) + (s[|s| - 1].1 - s[|s| - 1].0)
  }

  /** In normal form the lengths add up to the number of covered instants. */
  lemma {:induction false} NormalLength(s: seq<Interval>)
    requires Normal(s)
    ensures TotalLength(s) == |Points(s)|
  {
    if s != [] {
      NormalLength(s[..|s| - 1]);
      LastApart(s);
    }
  }

  lemma LastApart(s: seq<Interval>)
    requires Normal(s) && s != []
    ensures |Points(s)| == |Points(s[..|s| - 1])| + (s[|s| - 1].1 - s[|s| - 1].0)
  {
    var init, last := s[..|s| - 1], s[|s| - 1];
    RangeSize(last.0, last.1);
    forall x | x in Points(init)
      ensures x !in Range(last.0, last.1)
    {
      var i :| 0 <= i < |init| && Inside(init[i], x);
      assert init[i] == s[i];
    }
    DisjointSize(Points(init), Range(last.0, last.1));
  }

  lemma DisjointSize(a: set<int>, b: set<int>)
    requires a !! b
    ensures |a + b| == |a| + |b|
  {}

  /** Total covered time, each instant counted once however many intervals cover it. */
  method Duration(intervals: seq<Interval>) returns (d: int)
    ensures d == |Points(intervals)|
  {
    var merged := Merge(intervals);
    NormalLength(merged);
    SamePoints(merged, intervals);
    d := TotalLength(merged);
  }

  lemma SamePoints(s: seq<Interval>, t: seq<Interval>)
    requires forall x :: Covers(s, x) <==> Covers(t, x)
    ensures Points(s) == Points(t)
  {}

  /** A larger set of covered instants has at least the duration. */
  lemma MorePoints(a: set<int>, b: set<int>)
    requires a <= b
    ensures |a| <= |b|
  {
    assert b == a + (b - a);
  }
}
