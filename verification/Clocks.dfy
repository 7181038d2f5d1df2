/** Counting under an unknown clock offset (experiments/triad_partition_controlled/analyze.py):
    calibration bounds, kernel and host batch counts, and the all-worker overlap. Every figure is
    shown to hold for each offset that is consistent with the clock markers. */
module Clocks {
  import opened Wrappers
  import opened Intervals

  const MAX_UNCERTAINTY: int := 100000
  const WINDOW: int := 2_000_000_000
  const BATCH_LAUNCHES: int := 8
  const WARMUP_LAUNCHES: int := 20
  const USEFUL_BYTES: int := 24 * 33554432

  datatype Calibration = Calibration(name: string, before: int, after: int)
  datatype Marker = Marker(name: string, timestamp: int)
  datatype Kernel = Kernel(id: (string, string, string), start: int, end: int)
  datatype Batch = Batch(before: int, after: int, launches: int)

  /** The failed checks, by their messages. */
  datatype CheckError =
    | TwoMarkersRequired | MarkerMissingOrDuplicate | InvalidBracket | IncompatibleOffsets | UncertaintyTooLarge
    | NonpositiveInterval | WrongDispatchCount | DuplicateDispatch | InvalidTimestamps | NoCompleteKernels
    | InvalidBatches | NoCompleteBatches
    | PhaseFailed | ProcessMismatch | WorkerExit | DurationChanged | DuplicateDevice | SeveralPackages | DuplicateCpu
    | ResultMissing | IncorrectWorker | IdentityMismatch | DifferentWindow | SettingsMismatch
    | LaunchCountMismatch | SeveralAgents | InsufficientOverlap

  // ----- calibration

  /** Marker number j belongs to the calibration. */
  predicate MarkerOf(c: Calibration, markers: seq<Marker>, j: int) {
    0 <= j < |markers| && markers[j].name == c.name
  }

  ghost predicate HasOneMarker(c: Calibration, markers: seq<Marker>) {
    exists j :: MarkerOf(c, markers, j) && forall k | MarkerOf(c, markers, k) :: k == j
  }

  /** The calibration has exactly one marker, and its bracket is not reversed. */
  ghost predicate Bracketed(c: Calibration, markers: seq<Marker>) {
    c.before <= c.after && HasOneMarker(c, markers)
  }

  /** With offset d, its marker falls between the two host readings around it. */
  ghost predicate ConsistentWith(c: Calibration, markers: seq<Marker>, d: int) {
    forall j | MarkerOf(c, markers, j) :: c.before <= markers[j].timestamp + d <= c.after
  }

  /** Timestamps of the markers with the given name. */
  function Times(markers: seq<Marker>, name: string): seq<int> {
    if markers == [] then []
    else (if markers[0].name == name then [markers[0].timestamp] else []) + Times(markers[1..], name)
  }

  /** No timestamp is listed exactly if no marker has the name. */
  lemma {:induction false} TimesEmpty(markers: seq<Marker>, c: Calibration)
    ensures Times(markers, c.name) == [] <==> forall j :: !MarkerOf(c, markers, j)
  {
    if markers != [] {
      TimesEmpty(markers[1..], c);
      if j :| MarkerOf(c, markers, j) {
        assert j == 0 || MarkerOf(c, markers[1..], j - 1);
      }
      if j :| MarkerOf(c, markers[1..], j) {
        assert MarkerOf(c, markers, j + 1);
      }
      assert markers[0].name == c.name ==> MarkerOf(c, markers, 0);
    }
  }

  /** One timestamp is listed exactly if one marker has the name, and it is the timestamp of that marker. */
  lemma {:induction false} TimesSingle(markers: seq<Marker>, c: Calibration) returns (j: int)
    ensures |Times(markers, c.name)| == 1 ==>
              MarkerOf(c, markers, j) && Times(markers, c.name) == [markers[j].timestamp]
              && forall k | MarkerOf(c, markers, k) :: k == j
    ensures (exists i :: MarkerOf(c, markers, i) && forall k | MarkerOf(c, markers, k) :: k == i) ==>
              |Times(markers, c.name)| == 1
  {
    j := 0;
    if markers != [] {
      var rest := markers[1..];
      assert forall k | 0 < k :: MarkerOf(c, markers, k) <==> MarkerOf(c, rest, k - 1);
      TimesEmpty(rest, c);
      var i := TimesSingle(rest, c);
      if markers[0].name == c.name {
        assert MarkerOf(c, markers, 0);
        if i' :| MarkerOf(c, markers, i') && forall k | MarkerOf(c, markers, k) :: k == i' {
          forall k
            ensures !MarkerOf(c, rest, k)
          {
            assert MarkerOf(c, rest, k) ==> MarkerOf(c, markers, k + 1);
          }
        }
        if |Times(markers, c.name)| == 1 {
          assert forall k | MarkerOf(c, markers, k) :: k == 0 || MarkerOf(c, rest, k - 1);
        }
      } else {
        j := i + 1;
        OtherMarkers(markers, c);
      }
    }
  }

  lemma OtherMarkers(markers: seq<Marker>, c: Calibration)
    requires markers != [] && markers[0].name != c.name
    ensures forall k :: MarkerOf(c, markers, k) <==> MarkerOf(c, markers[1..], k - 1)
    ensures (exists i :: MarkerOf(c, markers, i) && forall k | MarkerOf(c, markers, k) :: k == i) ==>
              exists i :: MarkerOf(c, markers[1..], i) && forall k | MarkerOf(c, markers[1..], k) :: k == i
  {
    if i :| MarkerOf(c, markers, i) && forall k | MarkerOf(c, markers, k) :: k == i {
      forall k | MarkerOf(c, markers[1..], k)
        ensures k == i - 1
      {
        assert MarkerOf(c, markers, k + 1);
      }
      assert MarkerOf(c, markers[1..], i - 1);
    }
  }

  /** What the listed timestamps say about a calibration. */
  lemma TimesDecide(c: Calibration, markers: seq<Marker>)
    ensures HasOneMarker(c, markers) <==> |Times(markers, c.name)| == 1
    ensures Bracketed(c, markers) ==> forall d ::
              ConsistentWith(c, markers, d) <==> c.before <= Times(markers, c.name)[0] + d <= c.after
  {
    var j := TimesSingle(markers, c);
  }

  /** The only marker of a calibration decides about its offsets. */
  lemma MarkerDecides(c: Calibration, markers: seq<Marker>, j: int)
    requires MarkerOf(c, markers, j) && forall k | MarkerOf(c, markers, k) :: k == j
    ensures Bracketed(c, markers) <==> c.before <= c.after
    ensures forall d :: ConsistentWith(c, markers, d) <==>
                        c.before - markers[j].timestamp <= d <= c.after - markers[j].timestamp
  {
    forall d
      ensures ConsistentWith(c, markers, d) <==>
              c.before - markers[j].timestamp <= d <= c.after - markers[j].timestamp
    {
      if ConsistentWith(c, markers, d) {
        assert MarkerOf(c, markers, j);
      }
    }
  }

  /** A worked example: the host saw mark a between 1000 and 1100 and mark b between 2000 and 2100; on
      the clock of the trace they came at 400 and 1400. So the clocks are 600 to 700 apart. */
  lemma OffsetsOfExample(a: Calibration, b: Calibration, markers: seq<Marker>, d: int)
    requires a == Calibration("a", 1000, 1100) && b == Calibration("b", 2000, 2100)
    requires markers == [Marker("a", 400), Marker("b", 1400)]
    ensures Consistent([a, b], markers, d) <==> 600 <= d <= 700
  {
    assert a.name[0] != b.name[0];
    MarkerDecides(a, markers, 0);
    MarkerDecides(b, markers, 1);
    assert [a, b][0] == a && [a, b][1] == b;
  }

  /** Offset d explains all calibrations. */
  ghost predicate Consistent(calibrations: seq<Calibration>, markers: seq<Marker>, d: int) {
    forall i | 0 <= i < |calibrations| ::
      Bracketed(calibrations[i], markers) && ConsistentWith(calibrations[i], markers, d)
  }

  /** What a failed calibration complains about is so. */
  ghost predicate CalibrationFails(error: CheckError, calibrations: seq<Calibration>, markers: seq<Marker>) {
    match error
    case TwoMarkersRequired => |calibrations| != 2
    case MarkerMissingOrDuplicate => exists i :: 0 <= i < |calibrations| && !HasOneMarker(calibrations[i], markers)
    case InvalidBracket => exists i :: 0 <= i < |calibrations| && calibrations[i].after < calibrations[i].before
    case IncompatibleOffsets => forall d :: !Consistent(calibrations, markers, d)
    case UncertaintyTooLarge =>
      exists d, e :: Consistent(calibrations, markers, d) && Consistent(calibrations, markers, e) && 100000 < e - d
    case _ => false
  }

  /** Exactly the consistent offsets; fails when there are none or when they leave too much open. */
  method CalibrationBounds(calibrations: seq<Calibration>, markers: seq<Marker>)
    returns (r: Result<(int, int), CheckError>)
    ensures r.Failure? ==> CalibrationFails(r.error, calibrations, markers)
    ensures r.Success? ==> var (lo, hi) := r.value;
              lo <= hi && forall d :: lo <= d <= hi <==> Consistent(calibrations, markers, d)
    ensures r.Success? <==>
              |calibrations| == 2
              && (forall i | 0 <= i < |calibrations| :: Bracketed(calibrations[i], markers))
              && (exists d :: Consistent(calibrations, markers, d))
              && (forall d, e | Consistent(calibrations, markers, d) && Consistent(calibrations, markers, e) ::
                    e - d <= 100000)
  {
    if |calibrations| != 2 {
      return Failure(TwoMarkersRequired);
    }
    var lows: seq<int>, highs: seq<int> := [], [];
    var i := 0;
    while i < |calibrations|
      invariant 0 <= i <= |calibrations| && |lows| == |highs| == i
      invariant forall k | 0 <= k < i :: Bracketed(calibrations[k], markers)
      invariant forall k | 0 <= k < i ::
        forall d :: lows[k] <= d <= highs[k] <==> ConsistentWith(calibrations[k], markers, d)
    {
      var c := calibrations[i];
      var times := Times(markers, c.name);
      TimesDecide(c, markers);
      if |times| != 1 {
        return Failure(MarkerMissingOrDuplicate);
      }
      if c.after < c.before {
        return Failure(InvalidBracket);
      }
      lows := lows + [c.before - times[0]];
      highs := highs + [c.after - times[0]];
      i := i + 1;
    }
    var lo, hi := Max(lows[0], lows[1]), Min(highs[0], highs[1]);
    assert forall d :: lo <= d <= hi <==>
                       ConsistentWith(calibrations[0], markers, d) && ConsistentWith(calibrations[1], markers, d);
    assert forall d :: lo <= d <= hi <==> Consistent(calibrations, markers, d);
    if hi < lo {
      return Failure(IncompatibleOffsets);
    }
    assert Consistent(calibrations, markers, lo) && Consistent(calibrations, markers, hi);
    if MAX_UNCERTAINTY < hi - lo {
      return Failure(UncertaintyTooLarge);
    }
    return Success((lo, hi));
  }

  // ----- kernels

  ghost function Count(s: seq<Kernel>, p: Kernel -> bool): nat {
    if s == [] then 0 else Count(s[..|s| - 1], p) + (if p(s[|s| - 1]) then 1 else 0)
  }

  lemma {:induction false} CountMonotone(s: seq<Kernel>, p: Kernel -> bool, q: Kernel -> bool)
    requires forall i | 0 <= i < |s| :: p(s[i]) ==> q(s[i])
    ensures Count(s, p) <= Count(s, q)
  {
    if s != [] {
      CountMonotone(s[..|s| - 1], p, q);
    }
  }

  /** With clock offset d, the kernel runs entirely inside the window. */
  predicate RunsInside(k: Kernel, d: int, t0: int, t1: int) {
    t0 <= k.start + d && k.end + d <= t1
  }

  /** With clock offset d, the kernel runs at some instant of the window. */
  predicate Touches(k: Kernel, d: int, t0: int, t1: int) {
    t0 < k.end + d && k.start + d < t1
  }

  ghost function InsideFor(d: int, t0: int, t1: int): Kernel -> bool {
    k => RunsInside(k, d, t0, t1)
  }

  ghost function AlwaysInside(lo: int, hi: int, t0: int, t1: int): Kernel -> bool {
    k => forall d | lo <= d <= hi :: RunsInside(k, d, t0, t1)
  }

  ghost function MayTouch(lo: int, hi: int, t0: int, t1: int): Kernel -> bool {
    k => exists d :: lo <= d <= hi && Touches(k, d, t0, t1)
  }

  /** The kernel is active at x whatever the offset. */
  ghost predicate SurelyActive(k: Kernel, lo: int, hi: int, x: int) {
    forall d | lo <= d <= hi :: Active(k, d, x)
  }

  predicate Active(k: Kernel, d: int, x: int) {
    k.start + d <= x < k.end + d
  }

  ghost predicate SomeSurelyActive(kernels: seq<Kernel>, lo: int, hi: int, x: int) {
    exists i :: 0 <= i < |kernels| && SurelyActive(kernels[i], lo, hi, x)
  }

  function Ids(kernels: seq<Kernel>): set<(string, string, string)> {
    if kernels == [] then {} else Ids(kernels[..|kernels| - 1]) + {kernels[|kernels| - 1].id}
  }

  ghost predicate DistinctIds(kernels: seq<Kernel>) {
    forall i, j | 0 <= i < j < |kernels| :: kernels[i].id != kernels[j].id
  }

  lemma {:induction false} IdsMember(kernels: seq<Kernel>, id: (string, string, string))
    ensures id in Ids(kernels) <==> exists i :: 0 <= i < |kernels| && kernels[i].id == id
  {
    if kernels != [] {
      IdsMember(kernels[..|kernels| - 1], id);
    }
  }

  /** Counting the identities detects duplicates. */
  lemma {:induction false} IdsDistinct(kernels: seq<Kernel>)
    ensures |Ids(kernels)| <= |kernels|
    ensures |Ids(kernels)| == |kernels| <==> DistinctIds(kernels)
  {
    if kernels != [] {
      var n := |kernels| - 1;
      IdsDistinct(kernels[..n]);
      IdsMember(kernels[..n], kernels[n].id);
    }
  }

  lemma AlwaysInsideExactly(k: Kernel, lo: int, hi: int, t0: int, t1: int)
    requires lo <= hi
    ensures AlwaysInside(lo, hi, t0, t1)(k) <==> t0 <= k.start + lo && k.end + hi <= t1
  {
    if AlwaysInside(lo, hi, t0, t1)(k) {
      assert RunsInside(k, lo, t0, t1) && RunsInside(k, hi, t0, t1);
    }
  }

  lemma MayTouchExactly(k: Kernel, lo: int, hi: int, t0: int, t1: int)
    requires lo <= hi && t0 < t1 && k.start < k.end
    ensures MayTouch(lo, hi, t0, t1)(k) <==> t0 < k.end + hi && k.start + lo < t1
  {
    if t0 < k.end + hi && k.start + lo < t1 {
      var d := Max(lo, t0 - k.end + 1);
      assert lo <= d <= hi && Touches(k, d, t0, t1);
    }
  }

  lemma SurelyActiveExactly(k: Kernel, lo: int, hi: int, x: int)
    requires lo <= hi
    ensures SurelyActive(k, lo, hi, x) <==> k.start + hi <= x < k.end + lo
  {
    if SurelyActive(k, lo, hi, x) {
      assert Active(k, lo, x) && Active(k, hi, x);
    }
  }

  datatype Counts = Counts(complete: int, boundary: int, busy: seq<Interval>)

  /** What the counts of one trace mean, for a window [t0, t1) and offsets between lo and hi. */
  ghost predicate CountsMean(kernels: seq<Kernel>, lo: int, hi: int, t0: int, t1: int, c: Counts) {
    c.complete == Count(kernels, AlwaysInside(lo, hi, t0, t1))
    && c.complete + c.boundary == Count(kernels, MayTouch(lo, hi, t0, t1))
    && Normal(c.busy)
    && forall x :: Covers(c.busy, x) <==> t0 <= x < t1 && SomeSurelyActive(kernels, lo, hi, x)
  }

  /** What a rejected trace is rejected for is so. */
  ghost predicate TraceFails(error: CheckError, kernels: seq<Kernel>, lo: int, hi: int, t0: int, t1: int,
                             expected: int) {
    match error
    case NonpositiveInterval => t1 <= t0
    case WrongDispatchCount => |kernels| != expected
    case DuplicateDispatch => !DistinctIds(kernels)
    case InvalidTimestamps => exists i :: 0 <= i < |kernels| && kernels[i].end <= kernels[i].start
    case NoCompleteKernels => Count(kernels, AlwaysInside(lo, hi, t0, t1)) == 0
    case _ => false
  }

  /** Kernels certainly inside the window, kernels possibly touching it, and the instants of the
      window at which some kernel is certainly active. */
  method TraceCounts(kernels: seq<Kernel>, lo: int, hi: int, t0: int, t1: int, expected: int)
    returns (r: Result<Counts, CheckError>)
    requires lo <= hi
    ensures r.Failure? ==> TraceFails(r.error, kernels, lo, hi, t0, t1, expected)
    ensures r.Success? ==> 0 < r.value.complete && 0 <= r.value.boundary && CountsMean(kernels, lo, hi, t0, t1, r.value)
    ensures r.Success? <==> t0 < t1 && |kernels| == expected && DistinctIds(kernels)
                            && (forall i | 0 <= i < |kernels| :: kernels[i].start < kernels[i].end)
                            && 0 < Count(kernels, AlwaysInside(lo, hi, t0, t1))
  {
    if t1 <= t0 {
      return Failure(NonpositiveInterval);
    }
    if |kernels| != expected {
      return Failure(WrongDispatchCount);
    }
    IdsDistinct(kernels);
    if |Ids(kernels)| != |kernels| {
      return Failure(DuplicateDispatch);
    }
    var complete, boundary := 0, 0;
    var busy: seq<Interval> := [];
    var i := 0;
    while i < |kernels|
      invariant 0 <= i <= |kernels| && 0 <= complete && 0 <= boundary
      invariant forall k | 0 <= k < i :: kernels[k].start < kernels[k].end
      invariant complete == Count(kernels[..i], AlwaysInside(lo, hi, t0, t1))
      invariant complete + boundary == Count(kernels[..i], MayTouch(lo, hi, t0, t1))
      invariant forall x :: Covers(busy, x) <==> t0 <= x < t1 && SomeSurelyActive(kernels[..i], lo, hi, x)
    {
      var k := kernels[i];
      var a, b := k.start, k.end;
      if b <= a {
        return Failure(InvalidTimestamps);
      }
      assert kernels[..i + 1][..i] == kernels[..i];
      AlwaysInsideExactly(k, lo, hi, t0, t1);
      MayTouchExactly(k, lo, hi, t0, t1);
      if t0 <= a + lo && b + hi <= t1 {
        complete := complete + 1;
      } else if t0 < b + hi && a + lo < t1 {
        boundary := boundary + 1;
      }
      var left := Max(t0, a + hi);
      var right := Min(t1, b + lo);
      ghost var before := busy;
      if left < right {
        busy := busy + [(left, right)];
      }
      assert kernels[..i + 1] == kernels[..i] + [k];
      BusyStep(kernels[..i], kernels[..i + 1], k, lo, hi, t0, t1, before, busy);
      i := i + 1;
    }
    assert kernels[..|kernels|] == kernels;
    if complete == 0 {
      return Failure(NoCompleteKernels);
    }
    busy := Merge(busy);
    return Success(Counts(complete, boundary, busy));
  }

  /** The guaranteed activity of one more kernel, clipped to the window. */
  lemma BusyStep(kernels: seq<Kernel>, kernels': seq<Kernel>, k: Kernel, lo: int, hi: int, t0: int, t1: int,
                 busy: seq<Interval>, busy': seq<Interval>)
    requires lo <= hi && kernels' == kernels + [k]
    requires forall x :: Covers(busy, x) <==> t0 <= x < t1 && SomeSurelyActive(kernels, lo, hi, x)
    requires var v := (Max(t0, k.start + hi), Min(t1, k.end + lo));
             busy' == if v.0 < v.1 then busy + [v] else busy
    ensures forall x :: Covers(busy', x) <==> t0 <= x < t1 && SomeSurelyActive(kernels', lo, hi, x)
  {
    var v := (Max(t0, k.start + hi), Min(t1, k.end + lo));
    forall x
      ensures Covers(busy', x) <==> t0 <= x < t1 && SomeSurelyActive(kernels', lo, hi, x)
    {
      CoversAppend(busy, v, x);
      SurelyActiveExactly(k, lo, hi, x);
      SomeAppend(kernels, k, lo, hi, x);
    }
  }

  lemma SomeAppend(kernels: seq<Kernel>, k: Kernel, lo: int, hi: int, x: int)
    ensures SomeSurelyActive(kernels + [k], lo, hi, x) <==>
            SomeSurelyActive(kernels, lo, hi, x) || SurelyActive(k, lo, hi, x)
  {
    var s := kernels + [k];
    if SomeSurelyActive(kernels, lo, hi, x) {
      var i :| 0 <= i < |kernels| && SurelyActive(kernels[i], lo, hi, x);
      assert SurelyActive(s[i], lo, hi, x);
    }
    if SurelyActive(k, lo, hi, x) {
      assert SurelyActive(s[|kernels|], lo, hi, x);
    }
    if SomeSurelyActive(s, lo, hi, x) {
      var i :| 0 <= i < |s| && SurelyActive(s[i], lo, hi, x);
      assert i < |kernels| ==> SurelyActive(kernels[i], lo, hi, x);
    }
  }

  /** For every consistent offset, the number of kernels truly inside the window lies between
      the complete count and the complete plus boundary counts. */
  lemma CountsBracketTruth(kernels: seq<Kernel>, lo: int, hi: int, t0: int, t1: int, c: Counts, d: int)
    requires CountsMean(kernels, lo, hi, t0, t1, c) && lo <= d <= hi && t0 < t1
    requires forall i | 0 <= i < |kernels| :: kernels[i].start < kernels[i].end
    ensures c.complete <= Count(kernels, InsideFor(d, t0, t1)) <= c.complete + c.boundary
  {
    CountMonotone(kernels, AlwaysInside(lo, hi, t0, t1), InsideFor(d, t0, t1));
    forall i | 0 <= i < |kernels|
      ensures InsideFor(d, t0, t1)(kernels[i]) ==> MayTouch(lo, hi, t0, t1)(kernels[i])
    {
      MayTouchExactly(kernels[i], lo, hi, t0, t1);
    }
    CountMonotone(kernels, InsideFor(d, t0, t1), MayTouch(lo, hi, t0, t1));
  }

  // ----- host batches

  /** Batches follow one another in time and hold eight launches each. */
  predicate BatchesFrom(batches: seq<Batch>, previous: int)
    decreases |batches|
  {
    batches == []
    || (previous <= batches[0].before < batches[0].after && batches[0].launches == BATCH_LAUNCHES
        && BatchesFrom(batches[1..], batches[0].after))
  }

  /** A launch of the batch may have run from x to y. */
  predicate MayRun(b: Batch, x: int, y: int) {
    b.before <= x < y <= b.after
  }

  /** Whenever they ran, the launches of the batch ran entirely inside the window. */
  ghost predicate BatchInside(b: Batch, t0: int, t1: int) {
    forall x, y | MayRun(b, x, y) :: t0 <= x && y <= t1
  }

  /** They may have run in the window, at least in part, but not surely inside it. */
  ghost predicate BatchAcross(b: Batch, t0: int, t1: int) {
    !BatchInside(b, t0, t1) && exists x, y :: MayRun(b, x, y) && t0 < y && x < t1
  }

  lemma BatchExactly(b: Batch, t0: int, t1: int)
    requires b.before < b.after
    ensures BatchInside(b, t0, t1) <==> t0 <= b.before && b.after <= t1
    ensures BatchAcross(b, t0, t1) <==> !(t0 <= b.before && b.after <= t1) && t0 < b.after && b.before < t1
  {
    assert MayRun(b, b.before, b.after);
  }

  ghost function HostComplete(batches: seq<Batch>, t0: int, t1: int): int {
    if batches == [] then 0
    else (if BatchInside(batches[0], t0, t1) then batches[0].launches else 0) + HostComplete(batches[1..], t0, t1)
  }

  ghost function HostBoundary(batches: seq<Batch>, t0: int, t1: int): int {
    if batches == [] then 0
    else (if BatchAcross(batches[0], t0, t1) then batches[0].launches else 0) + HostBoundary(batches[1..], t0, t1)
  }

  /** Launches of the batches that lie inside, and of those that reach across an end of the window. */
  method HostCounts(batches: seq<Batch>, t0: int, t1: int) returns (r: Result<(int, int), CheckError>)
    ensures r.Success? <==> BatchesFrom(batches, 0) && HostComplete(batches, t0, t1) != 0
    ensures r.Success? ==> r.value == (HostComplete(batches, t0, t1), HostBoundary(batches, t0, t1)) && 0 < r.value.0
    ensures r.Failure? ==> r.error == if BatchesFrom(batches, 0) then NoCompleteBatches else InvalidBatches
  {
    var complete, boundary, previous := 0, 0, 0;
    var i := 0;
    assert batches[0..] == batches;
    while i < |batches|
      invariant 0 <= i <= |batches| && 0 <= complete
      invariant BatchesFrom(batches, 0) <==> BatchesFrom(batches[i..], previous)
      invariant complete + HostComplete(batches[i..], t0, t1) == HostComplete(batches, t0, t1)
      invariant boundary + HostBoundary(batches[i..], t0, t1) == HostBoundary(batches, t0, t1)
    {
      var b := batches[i];
      assert batches[i..][1..] == batches[i + 1..] && batches[i..][0] == b;
      if !(previous <= b.before < b.after && b.launches == BATCH_LAUNCHES) {
        return Failure(InvalidBatches);
      }
      previous := b.after;
      BatchExactly(b, t0, t1);
      if t0 <= b.before && b.after <= t1 {
        complete := complete + b.launches;
      } else if t0 < b.after && b.before < t1 {
        boundary := boundary + b.launches;
      }
      i := i + 1;
    }
    if complete <= 0 {
      return Failure(NoCompleteBatches);
    }
    return Success((complete, boundary));
  }

  /** What may truly have happened: every launch of a batch ran between its two host readings. */
  ghost predicate Plausible(batches: seq<Batch>, truth: seq<seq<Interval>>) {
    |truth| == |batches|
    && forall i | 0 <= i < |batches| ::
         |truth[i]| == batches[i].launches
         && forall j | 0 <= j < |truth[i]| ::
              batches[i].before <= truth[i][j].0 < truth[i][j].1 <= batches[i].after
  }

  ghost function LaunchesInside(launches: seq<Interval>, t0: int, t1: int): (n: nat)
    ensures n <= |launches|
  {
    if launches == [] then 0
    else (if t0 <= launches[0].0 && launches[0].1 <= t1 then 1 else 0) + LaunchesInside(launches[1..], t0, t1)
  }

  ghost function AllLaunchesInside(truth: seq<seq<Interval>>, t0: int, t1: int): nat {
    if truth == [] then 0 else LaunchesInside(truth[0], t0, t1) + AllLaunchesInside(truth[1..], t0, t1)
  }

  lemma {:induction false} BatchBracket(b: Batch, launches: seq<Interval>, t0: int, t1: int)
    requires forall j | 0 <= j < |launches| :: b.before <= launches[j].0 < launches[j].1 <= b.after
    ensures BatchInside(b, t0, t1) ==> LaunchesInside(launches, t0, t1) == |launches|
    ensures !BatchInside(b, t0, t1) && !BatchAcross(b, t0, t1) ==> LaunchesInside(launches, t0, t1) == 0
  {
    if launches != [] {
      assert MayRun(b, launches[0].0, launches[0].1);
      BatchBracket(b, launches[1..], t0, t1);
    }
  }

  /** The host counts bracket the launches truly inside the window. */
  lemma {:induction false} HostCountsBracketTruth(batches: seq<Batch>, previous: int, truth: seq<seq<Interval>>,
                                                  t0: int, t1: int)
    requires BatchesFrom(batches, previous) && Plausible(batches, truth)
    ensures HostComplete(batches, t0, t1) <= AllLaunchesInside(truth, t0, t1)
            <= HostComplete(batches, t0, t1) + HostBoundary(batches, t0, t1)
    decreases |batches|
  {
    if batches != [] {
      BatchBracket(batches[0], truth[0], t0, t1);
      HostCountsBracketTruth(batches[1..], batches[0].after, truth[1..], t0, t1);
    }
  }

  function Across(batches: seq<Batch>, t: int): nat {
    if batches == [] then 0 else (if batches[0].before < t < batches[0].after then 1 else 0) + Across(batches[1..], t)
  }

  /** Consecutive batches: at most one of them is under way at instant t. */
  lemma {:induction false} AcrossOnce(batches: seq<Batch>, previous: int, t: int)
    requires BatchesFrom(batches, previous)
    ensures Across(batches, t) <= 1 && (t <= previous ==> Across(batches, t) == 0)
    decreases |batches|
  {
    if batches != [] {
      AcrossOnce(batches[1..], batches[0].after, t);
    }
  }

  lemma {:induction false} BoundaryIsAcross(batches: seq<Batch>, previous: int, t0: int, t1: int)
    requires BatchesFrom(batches, previous)
    ensures 0 <= HostBoundary(batches, t0, t1) <= BATCH_LAUNCHES * (Across(batches, t0) + Across(batches, t1))
    decreases |batches|
  {
    if batches != [] {
      BatchExactly(batches[0], t0, t1);
      BoundaryIsAcross(batches[1..], batches[0].after, t0, t1);
    }
  }

  /** The uncertainty of the host estimate is at most two batches. */
  lemma HostBoundaryAtMostTwoBatches(batches: seq<Batch>, t0: int, t1: int)
    requires BatchesFrom(batches, 0)
    ensures HostBoundary(batches, t0, t1) <= 16
  {
    AcrossOnce(batches, 0, t0);
    AcrossOnce(batches, 0, t1);
    BoundaryIsAcross(batches, 0, t0, t1);
  }
}
