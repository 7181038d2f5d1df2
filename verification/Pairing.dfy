/** The analyzer's pairing (experiments/triad_partition_controlled/analyze.py): accepted phases are
    grouped, each group is paired, and a configuration is complete when all its traced repeats
    are. Shown against the planner's schedule. */
module Pairing {
  import opened Wrappers
  import opened Schedule

  /** Where a campaign ran; equal in all its phases. */
  datatype Place = Place(mode: string, node: string, package: string)

  datatype DeviceRow = DeviceRow(bdf: string, rate: real)

  /** A reduced phase: its specification, and one row per device. */
  datatype Phase = Phase(entry: Entry, place: Place, rows: seq<DeviceRow>)

  datatype Key = Key(config: Config, traced: bool, repeat: nat)

  datatype PairRow = PairRow(bdf: string, isolated: real, concurrent: real, slowdown: real, retained: real)

  datatype PairError =
    | MissingOrDuplicatePhase | MultipleWorkers | NoDevices | DuplicateBaseline | Unpaired | IncompletePairing
    | NonpositiveRate

  function KeyOf(p: Phase): Key {
    Key(p.entry.config, p.entry.traced, p.entry.repeat)
  }

  function WithCondition(phases: seq<Phase>, c: Condition): (r: seq<Phase>)
    ensures |r| <= |phases|
  {
    if phases == [] then []
    else
      var n := |phases| - 1;
      WithCondition(phases[..n], c) + (if phases[n].entry.condition == c then [phases[n]] else [])
  }

  /** Exactly the phases of that condition, each as often as it occurs. */
  lemma {:induction false} ConditionExactly(phases: seq<Phase>, c: Condition)
    ensures forall p :: multiset(WithCondition(phases, c))[p] ==
                        if p.entry.condition == c then multiset(phases)[p] else 0
  {
    if phases != [] {
      var n := |phases| - 1;
      ConditionExactly(phases[..n], c);
      assert phases == phases[..n] + [phases[n]];
    }
  }

  lemma InCondition(phases: seq<Phase>, c: Condition, p: Phase)
    requires p in WithCondition(phases, c)
    ensures p in phases && p.entry.condition == c
  {
    ConditionExactly(phases, c);
    assert p in multiset(WithCondition(phases, c));
    assert p in multiset(phases);
  }

  function Bdfs(rows: seq<DeviceRow>): set<string> {
    set r | r in rows :: r.bdf
  }

  /** The single-device rows of the isolated phases. */
  ghost predicate Baselines(isolated: seq<Phase>, concurrent: Phase) {
    (forall i | 0 <= i < |isolated| :: |isolated[i].rows| == 1 && KeyOf(isolated[i]) == KeyOf(concurrent)
                                        && isolated[i].place == concurrent.place)
    && forall i, j | 0 <= i < j < |isolated| && |isolated[i].rows| == 1 && |isolated[j].rows| == 1 ::
         isolated[i].rows[0].bdf != isolated[j].rows[0].bdf
  }

  /** The bdfs that have an isolated baseline. */
  ghost function BaselineBdfs(isolated: seq<Phase>): set<string> {
    set i | 0 <= i < |isolated| && |isolated[i].rows| == 1 :: isolated[i].rows[0].bdf
  }

  /** Exactly the groups that can be paired. */
  ghost predicate Pairable(phases: seq<Phase>, expected: set<string>) {
    var concurrent, isolated := WithCondition(phases, Concurrent), WithCondition(phases, Isolated);
    |concurrent| == 1 && |isolated| == |expected| && Baselines(isolated, concurrent[0])
    && BaselineBdfs(isolated) == expected == Bdfs(concurrent[0].rows) && concurrent[0].rows != []
    && (forall i | 0 <= i < |isolated| && |isolated[i].rows| == 1 :: 0.0 < isolated[i].rows[0].rate)
    && forall r | r in concurrent[0].rows :: 0.0 < r.rate
  }

  /** A pair row sets the device's concurrent rate against its own isolated rate. */
  ghost predicate PairRowHolds(r: PairRow, row: DeviceRow, isolated: seq<Phase>) {
    r.bdf == row.bdf && r.concurrent == row.rate
    && (exists i :: 0 <= i < |isolated| && isolated[i].rows == [DeviceRow(r.bdf, r.isolated)])
    && 0.0 < r.concurrent && 0.0 < r.isolated
    && r.slowdown * r.concurrent == r.isolated && r.retained * r.isolated == r.concurrent
  }

  /** One such row for each device of the concurrent phase. */
  ghost predicate RowsHold(rows: seq<PairRow>, c: Phase, isolated: seq<Phase>) {
    |rows| == |c.rows| && forall k | 0 <= k < |c.rows| :: PairRowHolds(rows[k], c.rows[k], isolated)
  }

  function Total(rates: seq<real>): real {
    if rates == [] then 0.0 else Total(rates[..|rates| - 1]) + rates[|rates| - 1]
  }

  lemma RatesPositive(rows: seq<DeviceRow>)
    requires forall r | r in rows :: 0.0 < r.rate
    ensures AllPositive(Rates(rows))
  {
    forall k | 0 <= k < |rows|
      ensures 0.0 < Rates(rows)[k]
    {
      assert rows[k] in rows;
    }
  }

  function Rates(rows: seq<DeviceRow>): (rates: seq<real>)
    ensures |rates| == |rows| && forall k | 0 <= k < |rows| :: rates[k] == rows[k].rate
  {
    seq(|rows|, k requires 0 <= k < |rows| => rows[k].rate)
  }

  /** The spread of the rates is the difference of the largest and the smallest, in units of their mean. */
  ghost predicate SpreadHolds(spread: real, rates: seq<real>) {
    exists i, j :: Extremes(rates, i, j) && InMeans(spread, rates[i] - rates[j], Total(rates), |rates|)
  }

  /** Rate i is a largest one, rate j a smallest. */
  ghost predicate Extremes(rates: seq<real>, i: int, j: int) {
    0 <= i < |rates| && 0 <= j < |rates| && forall k | 0 <= k < |rates| :: rates[j] <= rates[k] <= rates[i]
  }

  /** spread == range / (total / n) */
  ghost predicate InMeans(spread: real, range: real, total: real, n: nat) {
    spread * total == range * (n as real)
  }

  /** For two rates it is twice their difference over their sum. */
  lemma SpreadOfTwo(a: real, b: real, spread: real)
    requires 0.0 < b <= a && SpreadHolds(spread, [a, b])
    ensures spread * (a + b) == 2.0 * (a - b)
  {
    var rates := [a, b];
    var i, j :| Extremes(rates, i, j) && InMeans(spread, rates[i] - rates[j], Total(rates), |rates|);
    TotalOfTwo(a, b);
    assert rates[0] == a && rates[1] == b;
    assert rates[i] - rates[j] == a - b;
  }

  lemma TotalOfTwo(a: real, b: real)
    ensures Total([a, b]) == a + b
  {
    OneRateMore([], a, 0.0);
    OneRateMore([a], b, 0.0);
    assert [a, b] == [a] + [b] && [a] == [] + [a];
  }

  /** It is never negative, and zero exactly if all devices are equally fast. */
  lemma SpreadMeans(spread: real, rates: seq<real>)
    requires SpreadHolds(spread, rates) && AllPositive(rates)
    ensures 0.0 <= spread
    ensures spread == 0.0 <==> forall i, k | 0 <= i < |rates| && 0 <= k < |rates| :: rates[i] == rates[k]
  {
    var i, j :| Extremes(rates, i, j) && InMeans(spread, rates[i] - rates[j], Total(rates), |rates|);
    TotalPositive(rates);
    SignOfSpread(spread, rates[i] - rates[j], Total(rates), |rates|);
    AllEqual(rates, i, j);
  }

  ghost predicate AllPositive(rates: seq<real>) {
    forall k | 0 <= k < |rates| :: 0.0 < rates[k]
  }

  lemma AllEqual(rates: seq<real>, i: int, j: int)
    requires Extremes(rates, i, j)
    ensures rates[i] - rates[j] == 0.0 <==> forall k, l | 0 <= k < |rates| && 0 <= l < |rates| :: rates[k] == rates[l]
  {}

  lemma SignOfSpread(spread: real, range: real, total: real, n: nat)
    requires InMeans(spread, range, total, n) && 0.0 <= range && 0.0 < total && 0 < n
    ensures 0.0 <= spread && (spread == 0.0 <==> range == 0.0)
  {
    SignOfProduct(spread, total);
    SignOfProduct(range, n as real);
  }

  lemma SignOfProduct(a: real, b: real)
    requires 0.0 < b
    ensures (0.0 < a <==> 0.0 < a * b) && (a < 0.0 <==> a * b < 0.0)
  {}

  lemma {:induction false} TotalPositive(rates: seq<real>)
    requires rates != [] && AllPositive(rates)
    ensures 0.0 < Total(rates)
  {
    if |rates| > 1 {
      TotalPositive(rates[..|rates| - 1]);
    }
  }

  method Spread(rates: seq<real>) returns (spread: real)
    requires rates != [] && AllPositive(rates)
    ensures SpreadHolds(spread, rates)
  {
    var largest, smallest, total;
    ghost var i, j;
    largest, smallest, total, i, j := Statistics(rates);
    TotalPositive(rates);
    spread := DividedByMean(largest - smallest, total, |rates|);
    SpreadWitness(spread, rates, i, j, largest - smallest, total);
  }

  lemma SpreadWitness(spread: real, rates: seq<real>, i: int, j: int, range: real, total: real)
    requires Extremes(rates, i, j) && range == rates[i] - rates[j] && total == Total(rates)
    requires InMeans(spread, range, total, |rates|)
    ensures SpreadHolds(spread, rates)
  {}

  method Statistics(rates: seq<real>) returns (largest: real, smallest: real, total: real, ghost i: int, ghost j: int)
    requires rates != []
    ensures Extremes(rates, i, j) && largest == rates[i] && smallest == rates[j] && total == Total(rates)
  {
    total, i, j := 0.0, 0, 0;
    largest, smallest := rates[0], rates[0];
    var n := 0;
    while n < |rates|
      invariant 0 <= n <= |rates| && 0 <= i < |rates| && 0 <= j < |rates|
      invariant largest == rates[i] && smallest == rates[j] && total == Total(rates[..n])
      invariant forall k | 0 <= k < n :: smallest <= rates[k] <= largest
    {
      assert rates[..n + 1][..n] == rates[..n];
      total := total + rates[n];
      if largest < rates[n] {
        largest, i := rates[n], n;
      }
      if rates[n] < smallest {
        smallest, j := rates[n], n;
      }
      n := n + 1;
    }
    assert rates[..|rates|] == rates;
  }

  method DividedByMean(range: real, total: real, n: nat) returns (spread: real)
    requires 0.0 < total && 0 < n
    ensures InMeans(spread, range, total, n)
  {
    var mean := total / (n as real);
    assert mean * (n as real) == total;
    SignOfProduct(mean, n as real);
    spread := range / mean;
    assert spread * mean == range;
    Regroup(spread, mean, n as real);
  }

  lemma Regroup(a: real, b: real, c: real)
    ensures a * (b * c) == (a * b) * c
  {}

  // ----- the variation of the rates

  /** The sum of the squared distances from the mean. */
  function Deviations(rates: seq<real>, mean: real): real {
    if rates == [] then 0.0
    else
      var d := rates[|rates| - 1] - mean;
      Deviations(rates[..|rates| - 1], mean) + d * d
  }

  /** The mean squared distance from the mean, in units of the squared mean: the square of the
      coefficient of variation. */
  ghost predicate VariationHolds(variation: real, rates: seq<real>) {
    exists mean: real :: IsMean(mean, rates) && InSquares(variation, mean, |rates|, Deviations(rates, mean))
  }

  ghost predicate IsMean(mean: real, rates: seq<real>) {
    mean * (|rates| as real) == Total(rates)
  }

  /** n squared deviations, each at most the squared range, and all zero exactly if the range is. */
  ghost predicate InRange(deviations: real, range: real, n: nat) {
    0.0 <= deviations <= (range * range) * (n as real) && (deviations == 0.0 <==> range == 0.0)
  }

  /** variation == (deviations / n) / (mean * mean) */
  ghost predicate InSquares(variation: real, mean: real, n: nat, deviations: real) {
    (variation * (mean * mean)) * (n as real) == deviations
  }

  /** It is never negative and at most the squared spread, and zero exactly if the spread is zero. */
  lemma VariationMeans(variation: real, spread: real, rates: seq<real>)
    requires rates != [] && AllPositive(rates) && SpreadHolds(spread, rates) && VariationHolds(variation, rates)
    ensures 0.0 <= variation <= spread * spread
    ensures variation == 0.0 <==> spread == 0.0
  {
    var i, j :| Extremes(rates, i, j) && InMeans(spread, rates[i] - rates[j], Total(rates), |rates|);
    var mean: real :| IsMean(mean, rates) && InSquares(variation, mean, |rates|, Deviations(rates, mean));
    MeanBetween(rates, mean, rates[i], rates[j]);
    DeviationsInRange(rates, mean, i, j);
    InMeansOf(spread, rates[i] - rates[j], mean, rates);
    VariationOfMean(variation, spread, rates[i] - rates[j], mean, |rates|, Deviations(rates, mean));
  }

  lemma DeviationsInRange(rates: seq<real>, mean: real, i: int, j: int)
    requires Extremes(rates, i, j) && rates[j] <= mean <= rates[i]
    ensures InRange(Deviations(rates, mean), rates[i] - rates[j], |rates|)
  {
    DeviationsBetween(rates, mean, rates[i], rates[j]);
    if rates[i] == rates[j] {
      NoDeviations(rates, mean);
    } else {
      SomeDeviation(rates, mean, i);
      SomeDeviation(rates, mean, j);
    }
  }

  lemma MeanBetween(rates: seq<real>, mean: real, high: real, low: real)
    requires rates != [] && AllPositive(rates) && IsMean(mean, rates)
    requires forall k | 0 <= k < |rates| :: low <= rates[k] <= high
    ensures 0.0 < mean && low <= mean <= high
  {
    TotalPositive(rates);
    SignOfProduct(mean, |rates| as real);
    TotalBetween(rates, low, high);
    CancelPositive(low, mean, |rates| as real);
    CancelPositive(mean, high, |rates| as real);
  }

  lemma InMeansOf(spread: real, range: real, mean: real, rates: seq<real>)
    requires rates != [] && IsMean(mean, rates) && InMeans(spread, range, Total(rates), |rates|)
    ensures spread * mean == range
  {
    SpreadOfMean(spread, range, mean, |rates| as real);
  }

  lemma SpreadOfMean(spread: real, range: real, mean: real, n: real)
    requires 0.0 < n && spread * (mean * n) == range * n
    ensures spread * mean == range
  {
    Regroup(spread, mean, n);
    CancelPositive(spread * mean, range, n);
    CancelPositive(range, spread * mean, n);
  }

  lemma VariationOfMean(variation: real, spread: real, range: real, mean: real, n: nat, deviations: real)
    requires 0.0 < mean && 0 < n && spread * mean == range && InSquares(variation, mean, n, deviations)
    requires InRange(deviations, range, n)
    ensures 0.0 <= variation <= spread * spread
    ensures variation == 0.0 <==> spread == 0.0
  {
    var square, limit, squareRange := mean * mean, spread * spread, range * range;
    SquareOf(spread, mean);
    assert limit * square == squareRange;
    assert (variation * square) * (n as real) == deviations;
    SquareFacts(mean, mean, square);
    VariationScaled(variation, limit, square, n as real, squareRange, deviations);
    SignOfProduct(spread, mean);
  }

  /** variation is to limit as the deviations are to n times the squared range. */
  lemma VariationScaled(variation: real, limit: real, square: real, n: real, squareRange: real, deviations: real)
    requires 0.0 < square && 0.0 < n && limit * square == squareRange && (variation * square) * n == deviations
    requires 0.0 <= deviations <= squareRange * n
    ensures 0.0 <= variation <= limit && (variation == 0.0 <==> deviations == 0.0)
  {
    SignOfProduct(variation * square, n);
    SignOfProduct(variation, square);
    CancelPositive(variation * square, squareRange, n);
    CancelPositive(variation, limit, square);
  }

  lemma CancelPositive(a: real, b: real, c: real)
    requires 0.0 < c
    ensures a * c <= b * c <==> a <= b
  {
    SignOfProduct(b - a, c);
    assert (b - a) * c == b * c - a * c;
  }

  lemma SquareOf(a: real, b: real)
    ensures (a * b) * (a * b) == (a * a) * (b * b)
  {}

  lemma {:induction false} TotalBetween(rates: seq<real>, low: real, high: real)
    requires forall k | 0 <= k < |rates| :: low <= rates[k] <= high
    ensures low * (|rates| as real) <= Total(rates) <= high * (|rates| as real)
  {
    if rates != [] {
      TotalBetween(rates[..|rates| - 1], low, high);
      OneMoreTimes(low, |rates| - 1);
      OneMoreTimes(high, |rates| - 1);
    }
  }

  lemma OneMoreTimes(x: real, n: nat)
    ensures x * ((n + 1) as real) == x * (n as real) + x
  {}

  /** Each distance from the mean is at most the range. */
  lemma {:induction false} DeviationsBetween(rates: seq<real>, mean: real, high: real, low: real)
    requires low <= mean <= high && forall k | 0 <= k < |rates| :: low <= rates[k] <= high
    ensures 0.0 <= Deviations(rates, mean) <= ((high - low) * (high - low)) * (|rates| as real)
  {
    if rates != [] {
      var n := |rates| - 1;
      DeviationsBetween(rates[..n], mean, high, low);
      SquareBelow(rates[n] - mean, high - low);
      OneMoreTimes((high - low) * (high - low), n);
    }
  }

  lemma {:induction false} NoDeviations(rates: seq<real>, mean: real)
    requires forall k | 0 <= k < |rates| :: rates[k] == mean
    ensures Deviations(rates, mean) == 0.0
  {
    if rates != [] {
      NoDeviations(rates[..|rates| - 1], mean);
    }
  }

  lemma {:induction false} SomeDeviation(rates: seq<real>, mean: real, k: int)
    requires 0 <= k < |rates|
    ensures 0.0 <= Deviations(rates, mean) && (rates[k] != mean ==> 0.0 < Deviations(rates, mean))
  {
    var n := |rates| - 1;
    var d := rates[n] - mean;
    var square := d * d;
    SquareFacts(d, d, square);
    assert Deviations(rates, mean) == Deviations(rates[..n], mean) + square;
    if k < n {
      SomeDeviation(rates[..n], mean, k);
    } else if 0 < n {
      SomeDeviation(rates[..n], mean, 0);
    }
  }

  lemma SquareBelow(d: real, range: real)
    requires -range <= d <= range
    ensures 0.0 <= d * d <= range * range
  {
    SquareFacts(d, d, d * d);
    ProductNonnegative(range - d, range + d);
    assert (range - d) * (range + d) == range * range - d * d;
  }

  lemma SquareFacts(d: real, e: real, square: real)
    requires d == e && square == d * e
    ensures 0.0 <= square && (d != 0.0 ==> 0.0 < square) && (d == 0.0 ==> square == 0.0)
  {
    if 0.0 < d {
      SignOfProduct(d, e);
    } else if d < 0.0 {
      SignOfProduct(-d, -e);
      assert (-d) * (-e) == d * e;
    }
  }

  lemma ProductNonnegative(a: real, b: real)
    requires 0.0 <= a && 0.0 <= b
    ensures 0.0 <= a * b
  {
    if 0.0 < b {
      SignOfProduct(a, b);
    }
  }

  function Squares(rates: seq<real>): real {
    if rates == [] then 0.0
    else
      var x := rates[|rates| - 1];
      Squares(rates[..|rates| - 1]) + x * x
  }

  /** What the sum amounts to: the sum of the squares less the squared mean for each rate. */
  lemma DeviationsAre(rates: seq<real>, mean: real)
    requires IsMean(mean, rates)
    ensures Deviations(rates, mean) == Squares(rates) - mean * Total(rates)
  {
    DeviationsExpand(rates, mean);
    Regroup(mean, mean, |rates| as real);
  }

  lemma {:induction false} DeviationsExpand(rates: seq<real>, m: real)
    ensures Deviations(rates, m) == Squares(rates) - 2.0 * (m * Total(rates)) + (m * m) * (|rates| as real)
  {
    if rates != [] {
      var n := |rates| - 1;
      var x := rates[n];
      DeviationsExpand(rates[..n], m);
      OneMoreTimes(m * m, n);
      SquareOfDifference(x, m);
      Distributed(m, Total(rates[..n]), x);
    }
  }

  lemma SquareOfDifference(x: real, m: real)
    ensures (x - m) * (x - m) == x * x - 2.0 * (m * x) + m * m
  {}

  lemma Distributed(m: real, t: real, x: real)
    ensures m * (t + x) == m * t + m * x
  {}

  /** For two rates the coefficient of variation is their difference over their sum. */
  lemma VariationOfTwo(a: real, b: real, variation: real)
    requires 0.0 < a && 0.0 < b && VariationHolds(variation, [a, b])
    ensures variation * ((a + b) * (a + b)) == (a - b) * (a - b)
  {
    var rates := [a, b];
    var mean: real :| IsMean(mean, rates) && InSquares(variation, mean, |rates|, Deviations(rates, mean));
    OneRateMore([], a, mean);
    OneRateMore([a], b, mean);
    assert rates == [a] + [b] && [a] == [] + [a];
    HalvedSquares(a, b, mean, variation);
  }

  lemma OneRateMore(rates: seq<real>, x: real, mean: real)
    ensures Total(rates + [x]) == Total(rates) + x
    ensures Deviations(rates + [x], mean) == Deviations(rates, mean) + (x - mean) * (x - mean)
  {
    assert (rates + [x])[..|rates|] == rates;
  }

  lemma HalvedSquares(a: real, b: real, mean: real, variation: real)
    requires mean + mean == a + b
    requires (variation * (mean * mean)) * 2.0 == (a - mean) * (a - mean) + (b - mean) * (b - mean)
    ensures variation * ((a + b) * (a + b)) == (a - b) * (a - b)
  {
    var d := a - b;
    assert (a - mean) + (a - mean) == d && (b - mean) + (b - mean) == -d;
    FourTimes(a - mean, d);
    FourTimes(b - mean, -d);
    FourTimes(mean, a + b);
    assert (-d) * (-d) == d * d;
    Regroup(variation, mean, mean);
    assert variation * (4.0 * (mean * mean)) == 4.0 * (variation * (mean * mean));
  }

  lemma FourTimes(x: real, d: real)
    requires x + x == d
    ensures 4.0 * (x * x) == d * d
  {}

  method Variation(rates: seq<real>) returns (variation: real)
    requires rates != [] && AllPositive(rates)
    ensures VariationHolds(variation, rates)
  {
    var total := SumOf(rates);
    TotalPositive(rates);
    var n := |rates| as real;
    var mean := total / n;
    assert mean * n == total;
    SignOfProduct(mean, n);
    var deviations := DeviationsOf(rates, mean);
    SignOfProduct(mean, mean);
    var variance := deviations / n;
    variation := variance / (mean * mean);
    assert variation * (mean * mean) == variance && variance * n == deviations;
    assert IsMean(mean, rates) && InSquares(variation, mean, |rates|, Deviations(rates, mean));
  }

  method SumOf(rates: seq<real>) returns (total: real)
    ensures total == Total(rates)
  {
    total := 0.0;
    var n := 0;
    while n < |rates|
      invariant 0 <= n <= |rates| && total == Total(rates[..n])
    {
      assert rates[..n + 1][..n] == rates[..n];
      total := total + rates[n];
      n := n + 1;
    }
    assert rates[..|rates|] == rates;
  }

  method DeviationsOf(rates: seq<real>, mean: real) returns (deviations: real)
    ensures deviations == Deviations(rates, mean)
  {
    deviations := 0.0;
    var n := 0;
    while n < |rates|
      invariant 0 <= n <= |rates| && deviations == Deviations(rates[..n], mean)
    {
      assert rates[..n + 1][..n] == rates[..n];
      deviations := deviations + (rates[n] - mean) * (rates[n] - mean);
      n := n + 1;
    }
    assert rates[..|rates|] == rates;
  }

  /** How far the concurrent rates of the devices are apart. */
  datatype Dispersion = Dispersion(spread: real, variation: real)

  ghost predicate DispersionHolds(d: Dispersion, rates: seq<real>) {
    SpreadHolds(d.spread, rates) && VariationHolds(d.variation, rates)
  }

  /** What a group that is not paired lacks. */
  ghost predicate PairingFails(error: PairError, phases: seq<Phase>, expected: set<string>) {
    var concurrent, isolated := WithCondition(phases, Concurrent), WithCondition(phases, Isolated);
    match error
    case MissingOrDuplicatePhase => |concurrent| != 1 || |isolated| != |expected|
    case MultipleWorkers => exists i :: 0 <= i < |isolated| && |isolated[i].rows| != 1
    case DuplicateBaseline => exists i, j :: 0 <= i < j < |isolated| && SameBaseline(isolated[i], isolated[j])
    case Unpaired =>
      |concurrent| == 1
      && exists p :: p in isolated && (KeyOf(p) != KeyOf(concurrent[0]) || p.place != concurrent[0].place)
    case IncompletePairing =>
      |concurrent| == 1 && !(BaselineBdfs(isolated) == expected == Bdfs(concurrent[0].rows))
    case NonpositiveRate => exists p, r :: p in phases && r in p.rows && r.rate <= 0.0
    case NoDevices => |concurrent| == 1 && concurrent[0].rows == []
  }

  ghost predicate SameBaseline(p: Phase, q: Phase) {
    |p.rows| == 1 && |q.rows| == 1 && p.rows[0].bdf == q.rows[0].bdf
  }

  lemma RateFails(phases: seq<Phase>, c: Phase)
    requires WithCondition(phases, Concurrent) == [c]
    requires exists p, row :: (p == c || p in WithCondition(phases, Isolated)) && row in p.rows && row.rate <= 0.0
    ensures exists p, r :: p in phases && r in p.rows && r.rate <= 0.0
  {
    var p, row :| (p == c || p in WithCondition(phases, Isolated)) && row in p.rows && row.rate <= 0.0;
    if p == c {
      InCondition(phases, Concurrent, p);
    } else {
      InCondition(phases, Isolated, p);
    }
  }

  /** The group has one concurrent phase and as many isolated ones as there are devices, one for each. */
  ghost predicate Matched(phases: seq<Phase>, expected: set<string>) {
    var concurrent, isolated := WithCondition(phases, Concurrent), WithCondition(phases, Isolated);
    |concurrent| == 1 && |isolated| == |expected| && Baselines(isolated, concurrent[0])
    && BaselineBdfs(isolated) == expected == Bdfs(concurrent[0].rows)
  }

  /** The concurrent phase of the group, and the rows of the isolated ones. */
  method MatchPhases(phases: seq<Phase>, expected: set<string>)
    returns (r: Result<(Phase, map<string, DeviceRow>), PairError>)
    ensures r.Success? <==> Matched(phases, expected)
    ensures r.Failure? ==> PairingFails(r.error, phases, expected)
    ensures r.Success? ==> WithCondition(phases, Concurrent) == [r.value.0]
                           && LookupOf(WithCondition(phases, Isolated), r.value.1)
  {
    var concurrent := WithCondition(phases, Concurrent);
    var isolated := WithCondition(phases, Isolated);
    if |concurrent| != 1 || |isolated| != |expected| {
      return Failure(MissingOrDuplicatePhase);
    }
    var c := concurrent[0];
    var lookup := BuildLookup(isolated, c);
    if lookup.Failure? {
      return Failure(lookup.error);
    }
    if !(lookup.value.Keys == expected == Bdfs(c.rows)) {
      return Failure(IncompletePairing);
    }
    return Success((c, lookup.value));
  }

  /** Pair the isolated baselines of a group with its concurrent phase: the pairs, and the spread
      and the variation of the concurrent rates. */
  method PairPhases(phases: seq<Phase>, expected: set<string>)
    returns (r: Result<(seq<PairRow>, Dispersion), PairError>)
    ensures r.Success? <==> Pairable(phases, expected)
    ensures r.Failure? ==> PairingFails(r.error, phases, expected)
    ensures r.Success? ==>
              var c := WithCondition(phases, Concurrent)[0];
              RowsHold(r.value.0, c, WithCondition(phases, Isolated)) && DispersionHolds(r.value.1, Rates(c.rows))
  {
    var matched := MatchPhases(phases, expected);
    if matched.Failure? {
      return Failure(matched.error);
    }
    var (c, lookup) := matched.value;
    var rows := PairRows(c, WithCondition(phases, Isolated), lookup);
    if rows.Failure? {
      RateFails(phases, c);
      return Failure(rows.error);
    }
    if c.rows == [] {
      return Failure(NoDevices);
    }
    var dispersion := Disperse(c.rows);
    return Success((rows.value, dispersion));
  }

  method Disperse(rows: seq<DeviceRow>) returns (d: Dispersion)
    requires rows != [] && forall r | r in rows :: 0.0 < r.rate
    ensures DispersionHolds(d, Rates(rows))
  {
    RatesPositive(rows);
    var spread := Spread(Rates(rows));
    var variation := Variation(Rates(rows));
    d := Dispersion(spread, variation);
  }

  /** The lookup table holds exactly the isolated rows, by bdf. */
  ghost predicate LookupOf(isolated: seq<Phase>, lookup: map<string, DeviceRow>) {
    lookup.Keys == BaselineBdfs(isolated)
    && forall i | 0 <= i < |isolated| && |isolated[i].rows| == 1 ::
         isolated[i].rows[0].bdf in lookup && lookup[isolated[i].rows[0].bdf] == isolated[i].rows[0]
  }

  ghost predicate BaselineFails(error: PairError, isolated: seq<Phase>, c: Phase) {
    match error
    case MultipleWorkers => exists i :: 0 <= i < |isolated| && |isolated[i].rows| != 1
    case DuplicateBaseline => exists i, j :: 0 <= i < j < |isolated| && SameBaseline(isolated[i], isolated[j])
    case Unpaired => exists p :: p in isolated && (KeyOf(p) != KeyOf(c) || p.place != c.place)
    case _ => false
  }

  method BuildLookup(isolated: seq<Phase>, c: Phase) returns (r: Result<map<string, DeviceRow>, PairError>)
    ensures r.Success? <==> Baselines(isolated, c)
    ensures r.Failure? ==> BaselineFails(r.error, isolated, c)
    ensures r.Success? ==> LookupOf(isolated, r.value)
  {
    var lookup: map<string, DeviceRow> := map[];
    var i := 0;
    while i < |isolated|
      invariant 0 <= i <= |isolated|
      invariant Baselines(isolated[..i], c) && LookupOf(isolated[..i], lookup)
    {
      var p := isolated[i];
      ghost var before := isolated[..i];
      assert isolated[..i + 1] == before + [p];
      if |p.rows| != 1 {
        return Failure(MultipleWorkers);
      }
      var row := p.rows[0];
      if row.bdf in lookup {
        AlreadyThere(before, row.bdf, isolated, i);
        return Failure(DuplicateBaseline);
      }
      if KeyOf(p) != KeyOf(c) || p.place != c.place {
        return Failure(Unpaired);
      }
      BaselineAdded(before, p);
      StillDistinct(before, p, c);
      lookup := lookup[row.bdf := row];
      i := i + 1;
    }
    assert isolated[..|isolated|] == isolated;
    return Success(lookup);
  }

  lemma AlreadyThere(before: seq<Phase>, bdf: string, isolated: seq<Phase>, i: nat)
    requires i < |isolated| && before == isolated[..i] && |isolated[i].rows| == 1 && isolated[i].rows[0].bdf == bdf
    requires bdf in BaselineBdfs(before)
    ensures exists j, k :: 0 <= j < k < |isolated| && SameBaseline(isolated[j], isolated[k])
  {
    var k :| 0 <= k < |before| && |before[k].rows| == 1 && before[k].rows[0].bdf == bdf;
    assert SameBaseline(isolated[k], isolated[i]);
  }

  lemma StillDistinct(before: seq<Phase>, p: Phase, c: Phase)
    requires Baselines(before, c) && |p.rows| == 1 && p.rows[0].bdf !in BaselineBdfs(before)
    requires KeyOf(p) == KeyOf(c) && p.place == c.place
    ensures Baselines(before + [p], c)
  {
    var after := before + [p];
    forall i, j | 0 <= i < j < |after| && |after[i].rows| == 1 && |after[j].rows| == 1
      ensures after[i].rows[0].bdf != after[j].rows[0].bdf
    {
      assert after[i] == before[i];
      assert before[i].rows[0].bdf in BaselineBdfs(before);
    }
  }

  method PairRows(c: Phase, isolated: seq<Phase>, lookup: map<string, DeviceRow>)
    returns (r: Result<seq<PairRow>, PairError>)
    requires Baselines(isolated, c) && LookupOf(isolated, lookup) && lookup.Keys == Bdfs(c.rows)
    ensures r.Success? <==>
              (forall i | 0 <= i < |isolated| && |isolated[i].rows| == 1 :: 0.0 < isolated[i].rows[0].rate)
              && forall row | row in c.rows :: 0.0 < row.rate
    ensures r.Success? ==> RowsHold(r.value, c, isolated)
    ensures r.Failure? ==> r.error == NonpositiveRate && exists p, row :: (p == c || p in isolated) && row in p.rows
                                                                          && row.rate <= 0.0
  {
    var rows: seq<PairRow> := [];
    var k := 0;
    while k < |c.rows|
      invariant 0 <= k <= |c.rows| && |rows| == k
      invariant forall j | 0 <= j < k :: c.rows[j].bdf in lookup
      invariant forall j | 0 <= j < k :: PairRowHolds(rows[j], c.rows[j], isolated)
      invariant forall j | 0 <= j < k :: 0.0 < c.rows[j].rate && 0.0 < lookup[c.rows[j].bdf].rate
    {
      var row := c.rows[k];
      assert row.bdf in Bdfs(c.rows);
      var iso := lookup[row.bdf];
      ghost var j := BaselineOf(isolated, lookup, row.bdf);
      if iso.rate <= 0.0 || row.rate <= 0.0 {
        return Failure(NonpositiveRate);
      }
      rows := rows + [PairRow(row.bdf, iso.rate, row.rate, iso.rate / row.rate, row.rate / iso.rate)];
      PairRowMade(isolated, iso, row, j);
      k := k + 1;
    }
    forall j | 0 <= j < |isolated| && |isolated[j].rows| == 1
      ensures 0.0 < isolated[j].rows[0].rate
    {
      assert isolated[j].rows[0].bdf in Bdfs(c.rows);
    }
    return Success(rows);
  }

  lemma PairRowMade(isolated: seq<Phase>, iso: DeviceRow, row: DeviceRow, j: nat)
    requires j < |isolated| && isolated[j].rows == [iso] && iso.bdf == row.bdf && 0.0 < iso.rate && 0.0 < row.rate
    ensures PairRowHolds(PairRow(row.bdf, iso.rate, row.rate, iso.rate / row.rate, row.rate / iso.rate), row, isolated)
  {
    assert isolated[j].rows == [DeviceRow(row.bdf, iso.rate)];
  }

  lemma BaselineOf(isolated: seq<Phase>, lookup: map<string, DeviceRow>, bdf: string) returns (j: nat)
    requires LookupOf(isolated, lookup) && bdf in lookup
    ensures j < |isolated| && isolated[j].rows == [lookup[bdf]] && lookup[bdf].bdf == bdf
  {
    assert bdf in BaselineBdfs(isolated);
    j :| 0 <= j < |isolated| && |isolated[j].rows| == 1 && isolated[j].rows[0].bdf == bdf;
  }

  lemma BaselineAdded(before: seq<Phase>, p: Phase)
    requires |p.rows| == 1
    ensures BaselineBdfs(before + [p]) == BaselineBdfs(before) + {p.rows[0].bdf}
  {
    var after := before + [p];
    forall b | b in BaselineBdfs(before) + {p.rows[0].bdf}
      ensures b in BaselineBdfs(after)
    {
      if b == p.rows[0].bdf {
        assert after[|before|].rows[0].bdf == b;
      } else {
        var i :| 0 <= i < |before| && |before[i].rows| == 1 && before[i].rows[0].bdf == b;
        assert after[i].rows[0].bdf == b;
      }
    }
    forall b | b in BaselineBdfs(after)
      ensures b in BaselineBdfs(before) + {p.rows[0].bdf}
    {
      var i :| 0 <= i < |after| && |after[i].rows| == 1 && after[i].rows[0].bdf == b;
      if i < |before| {
        assert before[i].rows[0].bdf == b;
      }
    }
  }
}
