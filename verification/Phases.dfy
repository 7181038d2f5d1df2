/** reduce_phase (experiments/triad_partition_controlled/analyze.py): exactly which phases are
    accepted, and that the figures reported for them bound the truth for every choice of consistent
    offsets of the workers' clocks. */
module Phases {
  import opened Wrappers
  import opened Numbers
  import opened Intervals
  import opened Clocks
  import opened Schedule
  import opened Pairing

  /** What a worker was set up to run. */
  datatype Settings = Settings(
    elements: nat, elementBytes: nat, blockSize: nat, gridBlocks: nat, batchSize: nat, warmupLaunches: nat,
    config: Config)

  /** What the worker says about itself. */
  datatype Report = Report(
    ok: bool, validationErrors: nat, worker: string, mask: string, bdf: string, cus: nat, affinity: seq<nat>,
    t0: int, t1: int, settings: Settings)

  /** What a worker has timed and traced. */
  datatype Trace = Trace(
    batches: seq<Batch>, measuredLaunches: int,
    calibrations: seq<Calibration>, markers: seq<Marker>, kernels: seq<Kernel>)

  datatype Worker = Worker(report: Report, trace: Trace)

  /** The directory of a phase: what was planned, how its processes ended, and what the workers left. */
  datatype RawPhase = RawPhase(
    entry: Entry, place: Place, t0: int, t1: int,
    ok: bool, exits: map<string, int>, workers: map<string, Worker>)

  /** The reported figures of one device; the last two only of a traced phase. */
  datatype Row = Row(
    bdf: string, complete: int, boundary: int, usefulBytes: int, boundaryBytes: int,
    hostComplete: int, hostBoundary: int,
    busyTime: Option<int>, uncertainty: Option<int>)

  datatype Reduced = Reduced(rows: seq<Row>, overlap: Option<int>)

  function Launches(batches: seq<Batch>): int {
    if batches == [] then 0 else batches[0].launches + Launches(batches[1..])
  }

  /** Every batch has eight launches. */
  lemma {:induction false} LaunchesOfBatches(batches: seq<Batch>, previous: int)
    requires BatchesFrom(batches, previous)
    ensures Launches(batches) == 8 * |batches|
    decreases |batches|
  {
    if batches != [] {
      LaunchesOfBatches(batches[1..], batches[0].after);
    }
  }

  // ----- the checks of identity and configuration

  ghost predicate AllDifferent<T>(s: seq<T>) {
    forall i, j | 0 <= i < j < |s| :: s[i] != s[j]
  }

  function Elements<T>(s: seq<T>): set<T> {
    set x | x in s
  }

  lemma {:induction false} DifferentCount<T>(s: seq<T>)
    ensures |Elements(s)| <= |s|
    ensures |Elements(s)| == |s| <==> AllDifferent(s)
  {
    if s != [] {
      var n := |s| - 1;
      DifferentCount(s[..n]);
      assert s == s[..n] + [s[n]];
      assert Elements(s) == Elements(s[..n]) + {s[n]};
      if AllDifferent(s) {
        assert s[n] !in Elements(s[..n]);
      }
    }
  }

  lemma OneElement<T>(s: seq<T>)
    ensures |Elements(s)| == 1 <==> s != [] && forall i | 0 <= i < |s| :: s[i] == s[0]
  {
    if s != [] {
      assert s[0] in Elements(s);
      if |Elements(s)| == 1 {
        var others := Elements(s) - {s[0]};
        assert |others| == 0;
        forall i | 0 <= i < |s|
          ensures s[i] == s[0]
        {
          assert s[i] in Elements(s) && s[i] !in others;
        }
      }
      if forall i | 0 <= i < |s| :: s[i] == s[0] {
        assert Elements(s) == {s[0]};
      }
    }
  }

  function DeviceBdfs(devices: seq<Device>): seq<string> {
    seq(|devices|, i requires 0 <= i < |devices| => devices[i].bdf)
  }

  function Packages(devices: seq<Device>): seq<string> {
    seq(|devices|, i requires 0 <= i < |devices| => devices[i].package)
  }

  function Cpus(devices: seq<Device>): seq<nat> { seq(|devices|, i requires 0 <= i < |devices| => devices[i].cpu) }

  function WorkerNames(devices: seq<Device>): set<string> { set d | d in devices :: d.worker }

  function Agents(kernels: seq<Kernel>): seq<string> {
    seq(|kernels|, i requires 0 <= i < |kernels| => kernels[i].id.0)
  }

  ghost predicate ExitsMatch(exits: map<string, int>, devices: seq<Device>) {
    forall w :: w in exits <==> exists i :: 0 <= i < |devices| && devices[i].worker == w
  }

  predicate AllExitsZero(exits: map<string, int>) {
    forall w | w in exits :: exits[w] == 0
  }

  ghost predicate DifferentBdfs(devices: seq<Device>) {
    forall i, j | 0 <= i < j < |devices| :: devices[i].bdf != devices[j].bdf
  }

  ghost predicate DifferentCpus(devices: seq<Device>) {
    forall i, j | 0 <= i < j < |devices| :: devices[i].cpu != devices[j].cpu
  }

  ghost predicate OnePackage(devices: seq<Device>) {
    devices != [] && forall i | 0 <= i < |devices| :: devices[i].package == devices[0].package
  }

  /** The phase as a whole: its processes, its window of two seconds, and its devices. */
  ghost predicate PhaseOk(p: RawPhase) {
    var devices := p.entry.devices;
    p.ok && ExitsMatch(p.exits, devices) && AllExitsZero(p.exits) && p.t1 - p.t0 == 2_000_000_000
    && DifferentBdfs(devices) && OnePackage(devices) && DifferentCpus(devices)
  }

  function Expected(config: Config): Settings { Settings(33554432, 8, 192, 174763, 8, 20, config) }

  /** The worker is the one that was planned, ran as planned, and has computed correctly. */
  predicate Identified(d: Device, p: RawPhase, r: Report) {
    r.ok && r.validationErrors == 0 && r.worker == d.worker && r.mask == d.uuid
    && r.bdf == d.bdf && r.cus == d.cus && r.affinity == [d.cpu] && r.t0 == p.t0 && r.t1 == p.t1
    && r.settings.elements == 33554432 && r.settings.elementBytes == 8 && r.settings.blockSize == 192
    && r.settings.gridBlocks == 174763 && r.settings.batchSize == 8 && r.settings.warmupLaunches == 20
    && r.settings.config == p.entry.config
  }

  /** The lists that the checks look at. */
  lemma ListsOfDevices(devices: seq<Device>)
    ensures |Elements(DeviceBdfs(devices))| == |devices| <==> DifferentBdfs(devices)
    ensures |Elements(Cpus(devices))| == |devices| <==> DifferentCpus(devices)
    ensures |Elements(Packages(devices))| == 1 <==> OnePackage(devices)
  {
    DifferentCount(DeviceBdfs(devices));
    DifferentCount(Cpus(devices));
    OneElement(Packages(devices));
    assert forall i | 0 <= i < |devices| :: DeviceBdfs(devices)[i] == devices[i].bdf;
    assert forall i | 0 <= i < |devices| :: Cpus(devices)[i] == devices[i].cpu;
    assert forall i | 0 <= i < |devices| :: Packages(devices)[i] == devices[i].package;
  }

  lemma NamesOfWorkers(exits: map<string, int>, devices: seq<Device>)
    ensures exits.Keys == WorkerNames(devices) <==> ExitsMatch(exits, devices)
  {
    forall w
      ensures w in WorkerNames(devices) <==> exists i :: 0 <= i < |devices| && devices[i].worker == w
    {
      if w in WorkerNames(devices) {
        var d :| d in devices && d.worker == w;
        var i :| 0 <= i < |devices| && devices[i] == d;
      }
    }
    if ExitsMatch(exits, devices) {
      assert exits.Keys == WorkerNames(devices);
    }
  }

  /** What a rejected phase is rejected for is so. */
  ghost predicate PhaseFails(error: CheckError, p: RawPhase) {
    match error
    case PhaseFailed => !p.ok
    case ProcessMismatch => !ExitsMatch(p.exits, p.entry.devices)
    case WorkerExit => !AllExitsZero(p.exits)
    case DurationChanged => p.t1 - p.t0 != 2_000_000_000
    case DuplicateDevice => !DifferentBdfs(p.entry.devices)
    case SeveralPackages => !OnePackage(p.entry.devices)
    case DuplicateCpu => !DifferentCpus(p.entry.devices)
    case _ => false
  }

  method CheckPhase(p: RawPhase) returns (r: Result<(), CheckError>)
    ensures r.Success? <==> PhaseOk(p)
    ensures r.Failure? ==> PhaseFails(r.error, p)
  {
    ListsOfDevices(p.entry.devices);
    NamesOfWorkers(p.exits, p.entry.devices);
    if !p.ok {
      return Failure(PhaseFailed);
    }
    if p.exits.Keys != WorkerNames(p.entry.devices) {
      return Failure(ProcessMismatch);
    }
    if exists w :: w in p.exits && p.exits[w] != 0 {
      return Failure(WorkerExit);
    }
    if p.t1 - p.t0 != WINDOW {
      return Failure(DurationChanged);
    }
    if |Elements(DeviceBdfs(p.entry.devices))| != |p.entry.devices| {
      return Failure(DuplicateDevice);
    }
    if |Elements(Packages(p.entry.devices))| != 1 {
      return Failure(SeveralPackages);
    }
    if |Elements(Cpus(p.entry.devices))| != |p.entry.devices| {
      return Failure(DuplicateCpu);
    }
    return Success(());
  }

  /** What a rejected worker is rejected for is so. */
  ghost predicate ReportFails(error: CheckError, d: Device, p: RawPhase, r: Report) {
    match error
    case IncorrectWorker => !r.ok || r.validationErrors != 0
    case IdentityMismatch =>
      r.worker != d.worker || r.mask != d.uuid || r.bdf != d.bdf || r.cus != d.cus || r.affinity != [d.cpu]
    case DifferentWindow => r.t0 != p.t0 || r.t1 != p.t1
    case SettingsMismatch => r.settings != Settings(33554432, 8, 192, 174763, 8, 20, p.entry.config)
    case _ => false
  }

  method CheckReport(d: Device, p: RawPhase, r: Report) returns (result: Result<(), CheckError>)
    ensures result.Success? <==> Identified(d, p, r)
    ensures result.Failure? ==> ReportFails(result.error, d, p, r)
  {
    if !r.ok || r.validationErrors != 0 {
      return Failure(IncorrectWorker);
    }
    if r.worker != d.worker || r.mask != d.uuid || r.bdf != d.bdf || r.cus != d.cus || r.affinity != [d.cpu] {
      return Failure(IdentityMismatch);
    }
    if r.t0 != p.t0 || r.t1 != p.t1 {
      return Failure(DifferentWindow);
    }
    if r.settings != Expected(p.entry.config) {
      return Failure(SettingsMismatch);
    }
    return Success(());
  }

  // ----- what the figures mean

  ghost predicate ConsistentFor(w: Trace, d: int) {
    Consistent(w.calibrations, w.markers, d)
  }

  /** With offset d, some kernel is active at instant x. */
  ghost predicate ActiveAt(kernels: seq<Kernel>, d: int, x: int) {
    exists i :: 0 <= i < |kernels| && Active(kernels[i], d, x)
  }

  /** One kernel of the worker is active at x whatever the offset. */
  ghost predicate CertainlyBusy(w: Trace, x: int) {
    exists i :: 0 <= i < |w.kernels| && ActiveForAll(w, w.kernels[i], x)
  }

  ghost predicate ActiveForAll(w: Trace, k: Kernel, x: int) {
    forall d | ConsistentFor(w, d) :: Active(k, d, x)
  }

  /** Inside the window whatever the offset. */
  ghost function CertainlyInside(w: Trace, t0: int, t1: int): Kernel -> bool {
    k => forall d | ConsistentFor(w, d) :: RunsInside(k, d, t0, t1)
  }

  /** At some instant of the window for some offset. */
  ghost function PossiblyTouching(w: Trace, t0: int, t1: int): Kernel -> bool {
    k => exists d :: ConsistentFor(w, d) && Touches(k, d, t0, t1)
  }

  /** One consistent offset for every worker. */
  ghost predicate ConsistentOffsets(traces: seq<Trace>, offsets: seq<int>) {
    |offsets| == |traces| && forall w | 0 <= w < |traces| :: ConsistentFor(traces[w], offsets[w])
  }

  /** The instants of the window at which every worker is truly active under these offsets. */
  ghost function AllActive(traces: seq<Trace>, offsets: seq<int>, t0: int, t1: int): set<int>
    requires |offsets| == |traces|
  {
    set x | x in Range(t0, t1) && forall w | 0 <= w < |traces| :: ActiveAt(traces[w].kernels, offsets[w], x)
  }

  /** The instants of the window at which every worker is certainly busy. */
  ghost function AllCertain(traces: seq<Trace>, t0: int, t1: int): set<int> {
    set x | x in Range(t0, t1) && forall w | 0 <= w < |traces| :: CertainlyBusy(traces[w], x)
  }

  ghost function CertainInstants(w: Trace, t0: int, t1: int): set<int> {
    set x | x in Range(t0, t1) && CertainlyBusy(w, x)
  }

  ghost function ActiveInstants(w: Trace, d: int, t0: int, t1: int): set<int> {
    set x | x in Range(t0, t1) && ActiveAt(w.kernels, d, x)
  }

  lemma CertainIsActive(w: Trace, d: int, x: int)
    requires CertainlyBusy(w, x) && ConsistentFor(w, d)
    ensures ActiveAt(w.kernels, d, x)
  {
    var i :| 0 <= i < |w.kernels| && ActiveForAll(w, w.kernels[i], x);
    assert Active(w.kernels[i], d, x);
  }

  /** The row of a traced worker means what it says for every consistent offset. */
  ghost predicate TracedRowHolds(w: Trace, row: Row, t0: int, t1: int) {
    0 < row.complete && 0 <= row.boundary
    && row.complete == Count(w.kernels, CertainlyInside(w, t0, t1))
    && row.complete + row.boundary == Count(w.kernels, PossiblyTouching(w, t0, t1))
    && row.busyTime == Some(|CertainInstants(w, t0, t1)|)
    && row.uncertainty.Some? && 0 <= row.uncertainty.value <= 100000
    && (exists d, e :: ConsistentFor(w, d) && ConsistentFor(w, e) && e - d == row.uncertainty.value)
    && (forall d, e | ConsistentFor(w, d) && ConsistentFor(w, e) :: e - d <= row.uncertainty.value)
    && forall d | ConsistentFor(w, d) :: CountHolds(w, row, d, t0, t1)
  }

  /** Under offset d: the counts bracket the kernels inside the window, and the worker is truly busy
      for at least the reported time. */
  ghost predicate CountHolds(w: Trace, row: Row, d: int, t0: int, t1: int) {
    row.complete <= Count(w.kernels, InsideFor(d, t0, t1)) <= row.complete + row.boundary
    && (row.busyTime.Some? ==> row.busyTime.value <= |ActiveInstants(w, d, t0, t1)|)
  }

  /** The host figures of a row. */
  ghost predicate HostRowHolds(w: Trace, row: Row, t0: int, t1: int) {
    BatchesFrom(w.batches, 0) && row.hostBoundary <= 16
    && row.hostComplete == HostComplete(w.batches, t0, t1) && row.hostBoundary == HostBoundary(w.batches, t0, t1)
  }

  /** What a reported row promises. An untraced row reports the host figures. Each kernel moves
      24 bytes for each of its 33554432 elements. */
  ghost predicate RowHolds(w: Trace, row: Row, traced: bool, t0: int, t1: int) {
    0 < row.complete && HostRowHolds(w, row, t0, t1)
    && row.usefulBytes == row.complete * 805306368 && row.boundaryBytes == row.boundary * 805306368
    && (traced ==> TracedRowHolds(w, row, t0, t1))
    && (!traced ==> row.complete == row.hostComplete && row.boundary == row.hostBoundary
                    && row.busyTime == None && row.uncertainty == None)
  }

  // ----- what is accepted

  /** Two clock markers that some offset explains, and no two offsets more than 100 us apart. */
  ghost predicate Calibrated(w: Trace) {
    |w.calibrations| == 2
    && (forall i | 0 <= i < |w.calibrations| :: Bracketed(w.calibrations[i], w.markers))
    && (exists d :: ConsistentFor(w, d))
    && forall d, e | ConsistentFor(w, d) && ConsistentFor(w, e) :: e - d <= 100000
  }

  ghost predicate OneAgent(kernels: seq<Kernel>) {
    kernels != [] && forall i | 0 <= i < |kernels| :: kernels[i].id.0 == kernels[0].id.0
  }

  lemma AgentsOfKernels(kernels: seq<Kernel>)
    ensures |Elements(Agents(kernels))| == 1 <==> OneAgent(kernels)
  {
    OneElement(Agents(kernels));
    assert forall i | 0 <= i < |kernels| :: Agents(kernels)[i] == kernels[i].id.0;
  }

  /** A trace with the right kernels, one of which is certainly inside the window. */
  ghost predicate Traced(w: Trace, t0: int, t1: int) {
    OneAgent(w.kernels) && |w.kernels| == w.measuredLaunches + 20 && DistinctIds(w.kernels)
    && (forall i | 0 <= i < |w.kernels| :: w.kernels[i].start < w.kernels[i].end)
    && 0 < Count(w.kernels, CertainlyInside(w, t0, t1))
  }

  ghost predicate TraceOk(w: Trace, traced: bool, t0: int, t1: int) {
    8 * |w.batches| == w.measuredLaunches && BatchesFrom(w.batches, 0) && HostComplete(w.batches, t0, t1) != 0
    && (traced ==> Calibrated(w) && Traced(w, t0, t1))
  }

  /** Every device has its worker's result, identified and with a good trace. */
  ghost predicate WorkerOk(p: RawPhase, d: Device) {
    d.worker in p.workers && Identified(d, p, p.workers[d.worker].report)
    && TraceOk(p.workers[d.worker].trace, p.entry.traced, p.t0, p.t1)
  }

  /** The traces of the devices, in order. */
  function Traces(p: RawPhase): (traces: seq<Trace>)
    requires forall i | 0 <= i < |p.entry.devices| :: p.entry.devices[i].worker in p.workers
    ensures |traces| == |p.entry.devices|
    ensures forall i | 0 <= i < |traces| :: traces[i] == p.workers[p.entry.devices[i].worker].trace
  {
    seq(|p.entry.devices|, i requires 0 <= i < |p.entry.devices| => p.workers[p.entry.devices[i].worker].trace)
  }

  /** Exactly the phases that are accepted: all checks hold, and if the phase is traced, all workers
      are certainly busy together for nine tenths of the window. */
  ghost predicate Acceptable(p: RawPhase) {
    PhaseOk(p) && (forall i | 0 <= i < |p.entry.devices| :: WorkerOk(p, p.entry.devices[i]))
    && (p.entry.traced ==> 1_800_000_000 <= |AllCertain(Traces(p), p.t0, p.t1)|)
  }

  // ----- one worker

  /** The bounds speak of exactly the consistent offsets. */
  ghost predicate BoundsAre(w: Trace, lo: int, hi: int) {
    lo <= hi && forall d :: lo <= d <= hi <==> ConsistentFor(w, d)
  }

  lemma InsideByBounds(w: Trace, lo: int, hi: int, t0: int, t1: int, s: seq<Kernel>)
    requires BoundsAre(w, lo, hi)
    ensures Count(s, CertainlyInside(w, t0, t1)) == Count(s, AlwaysInside(lo, hi, t0, t1))
  {
    CountMonotone(s, CertainlyInside(w, t0, t1), AlwaysInside(lo, hi, t0, t1));
    CountMonotone(s, AlwaysInside(lo, hi, t0, t1), CertainlyInside(w, t0, t1));
  }

  lemma TouchingByBounds(w: Trace, lo: int, hi: int, t0: int, t1: int, s: seq<Kernel>)
    requires BoundsAre(w, lo, hi)
    ensures Count(s, PossiblyTouching(w, t0, t1)) == Count(s, MayTouch(lo, hi, t0, t1))
  {
    forall i | 0 <= i < |s|
      ensures PossiblyTouching(w, t0, t1)(s[i]) <==> MayTouch(lo, hi, t0, t1)(s[i])
    {
      if d :| ConsistentFor(w, d) && Touches(s[i], d, t0, t1) {
        assert lo <= d <= hi;
      }
    }
    CountMonotone(s, PossiblyTouching(w, t0, t1), MayTouch(lo, hi, t0, t1));
    CountMonotone(s, MayTouch(lo, hi, t0, t1), PossiblyTouching(w, t0, t1));
  }

  lemma BusyByBounds(w: Trace, lo: int, hi: int, x: int)
    requires BoundsAre(w, lo, hi)
    ensures SomeSurelyActive(w.kernels, lo, hi, x) <==> CertainlyBusy(w, x)
  {
    if SomeSurelyActive(w.kernels, lo, hi, x) {
      var i :| 0 <= i < |w.kernels| && SurelyActive(w.kernels[i], lo, hi, x);
      assert ActiveForAll(w, w.kernels[i], x);
    }
    if CertainlyBusy(w, x) {
      var i :| 0 <= i < |w.kernels| && ActiveForAll(w, w.kernels[i], x);
      assert SurelyActive(w.kernels[i], lo, hi, x);
    }
  }

  lemma CalibratedMeans(w: Trace)
    ensures Calibrated(w) <==>
              |w.calibrations| == 2
              && (forall i | 0 <= i < |w.calibrations| :: Bracketed(w.calibrations[i], w.markers))
              && (exists d :: Consistent(w.calibrations, w.markers, d))
              && (forall d, e | Consistent(w.calibrations, w.markers, d) && Consistent(w.calibrations, w.markers, e) ::
                    e - d <= 100000)
  {
    if d :| Consistent(w.calibrations, w.markers, d) {
      assert ConsistentFor(w, d);
    }
    if Calibrated(w) {
      forall d, e | Consistent(w.calibrations, w.markers, d) && Consistent(w.calibrations, w.markers, e)
        ensures e - d <= 100000
      {
        assert ConsistentFor(w, d) && ConsistentFor(w, e);
      }
    }
  }

  /** A traced worker: its counts, and the intervals in which it is certainly busy. */
  method ReduceTraced(bdf: string, w: Trace, t0: int, t1: int, host: (int, int))
    returns (r: Result<(Row, seq<Interval>), CheckError>)
    requires t0 < t1
    ensures r.Success? <==> Calibrated(w) && Traced(w, t0, t1)
    ensures r.Success? ==> TracedRowHolds(w, r.value.0, t0, t1) && Normal(r.value.1)
    ensures r.Success? ==> r.value.0.usefulBytes == r.value.0.complete * 805306368
                           && r.value.0.boundaryBytes == r.value.0.boundary * 805306368
    ensures r.Success? ==> r.value.0.bdf == bdf && (r.value.0.hostComplete, r.value.0.hostBoundary) == host
    ensures r.Success? ==> forall x :: Covers(r.value.1, x) <==> t0 <= x < t1 && CertainlyBusy(w, x)
  {
    AgentsOfKernels(w.kernels);
    if |Elements(Agents(w.kernels))| != 1 {
      return Failure(SeveralAgents);
    }
    var bounds := Bounds(w);
    if bounds.Failure? {
      return Failure(bounds.error);
    }
    var (lo, hi) := bounds.value;
    var counts := CountsInBounds(w, lo, hi, t0, t1);
    if counts.Failure? {
      return Failure(counts.error);
    }
    var c := counts.value;
    var duty := Duration(c.busy);
    var row := Row(bdf, c.complete, c.boundary, c.complete * USEFUL_BYTES, c.boundary * USEFUL_BYTES,
                   host.0, host.1, Some(duty), Some(hi - lo));
    TracedRowMeans(w, lo, hi, c, row, t0, t1);
    return Success((row, c.busy));
  }

  /** The calibration of a worker. */
  method Bounds(w: Trace) returns (r: Result<(int, int), CheckError>)
    ensures r.Success? <==> Calibrated(w)
    ensures r.Success? ==> BoundsAre(w, r.value.0, r.value.1) && r.value.1 - r.value.0 <= MAX_UNCERTAINTY
  {
    r := CalibrationBounds(w.calibrations, w.markers);
    CalibratedMeans(w);
    if r.Success? {
      assert ConsistentFor(w, r.value.0) && ConsistentFor(w, r.value.1);
    }
  }

  /** The counts of a worker whose offsets lie between lo and hi. */
  method CountsInBounds(w: Trace, lo: int, hi: int, t0: int, t1: int) returns (r: Result<Counts, CheckError>)
    requires t0 < t1 && BoundsAre(w, lo, hi) && OneAgent(w.kernels)
    ensures r.Success? <==> Traced(w, t0, t1)
    ensures r.Success? ==>
              CountsMean(w.kernels, lo, hi, t0, t1, r.value) && 0 < r.value.complete && 0 <= r.value.boundary
  {
    r := TraceCounts(w.kernels, lo, hi, t0, t1, w.measuredLaunches + WARMUP_LAUNCHES);
    InsideByBounds(w, lo, hi, t0, t1, w.kernels);
  }

  lemma TracedRowMeans(w: Trace, lo: int, hi: int, c: Counts, row: Row, t0: int, t1: int)
    requires t0 < t1 && BoundsAre(w, lo, hi) && hi - lo <= MAX_UNCERTAINTY
    requires CountsMean(w.kernels, lo, hi, t0, t1, c) && 0 < c.complete && 0 <= c.boundary
    requires forall i | 0 <= i < |w.kernels| :: w.kernels[i].start < w.kernels[i].end
    requires row.complete == c.complete && row.boundary == c.boundary
    requires row.busyTime == Some(|Points(c.busy)|) && row.uncertainty == Some(hi - lo)
    ensures TracedRowHolds(w, row, t0, t1)
    ensures forall x :: Covers(c.busy, x) <==> t0 <= x < t1 && CertainlyBusy(w, x)
  {
    BusyIsCertain(w, lo, hi, c.busy, t0, t1);
    InsideByBounds(w, lo, hi, t0, t1, w.kernels);
    TouchingByBounds(w, lo, hi, t0, t1, w.kernels);
    assert ConsistentFor(w, lo) && ConsistentFor(w, hi);
    forall d | ConsistentFor(w, d)
      ensures CountHolds(w, row, d, t0, t1)
    {
      TracedCountHolds(w, lo, hi, c, row, t0, t1, d);
    }
  }

  lemma TracedCountHolds(w: Trace, lo: int, hi: int, c: Counts, row: Row, t0: int, t1: int, d: int)
    requires t0 < t1 && lo <= d <= hi && ConsistentFor(w, d) && CountsMean(w.kernels, lo, hi, t0, t1, c)
    requires forall i | 0 <= i < |w.kernels| :: w.kernels[i].start < w.kernels[i].end
    requires row.complete == c.complete && row.boundary == c.boundary
    requires row.busyTime == Some(|CertainInstants(w, t0, t1)|)
    ensures CountHolds(w, row, d, t0, t1)
  {
    CountsBracketTruth(w.kernels, lo, hi, t0, t1, c, d);
    CertainTimeIsSound(w, d, t0, t1);
  }

  lemma BusyIsCertain(w: Trace, lo: int, hi: int, busy: seq<Interval>, t0: int, t1: int)
    requires BoundsAre(w, lo, hi)
    requires forall x :: Covers(busy, x) <==> t0 <= x < t1 && SomeSurelyActive(w.kernels, lo, hi, x)
    ensures forall x :: Covers(busy, x) <==> t0 <= x < t1 && CertainlyBusy(w, x)
    ensures Points(busy) == CertainInstants(w, t0, t1)
  {
    forall x
      ensures SomeSurelyActive(w.kernels, lo, hi, x) <==> CertainlyBusy(w, x)
    {
      BusyByBounds(w, lo, hi, x);
    }
  }

  /** The certainly busy time is at most the true busy time in the window. */
  lemma CertainTimeIsSound(w: Trace, d: int, t0: int, t1: int)
    requires ConsistentFor(w, d)
    ensures |CertainInstants(w, t0, t1)| <= |ActiveInstants(w, d, t0, t1)|
  {
    forall x | x in CertainInstants(w, t0, t1)
      ensures x in ActiveInstants(w, d, t0, t1)
    {
      CertainIsActive(w, d, x);
    }
    MorePoints(CertainInstants(w, t0, t1), ActiveInstants(w, d, t0, t1));
  }

  /** The timing of one worker: its row, and for a traced one where it is certainly busy. */
  method ReduceTrace(bdf: string, w: Trace, traced: bool, t0: int, t1: int)
    returns (r: Result<(Row, seq<Interval>), CheckError>)
    requires t0 < t1
    ensures r.Success? <==> TraceOk(w, traced, t0, t1)
    ensures r.Success? ==> RowHolds(w, r.value.0, traced, t0, t1) && r.value.0.bdf == bdf && Normal(r.value.1)
    ensures r.Success? && traced ==> forall x :: Covers(r.value.1, x) <==> t0 <= x < t1 && CertainlyBusy(w, x)
  {
    if BatchesFrom(w.batches, 0) {
      LaunchesOfBatches(w.batches, 0);
    }
    if Launches(w.batches) != w.measuredLaunches {
      return Failure(LaunchCountMismatch);
    }
    var host := HostCounts(w.batches, t0, t1);
    if host.Failure? {
      return Failure(host.error);
    }
    HostBoundaryAtMostTwoBatches(w.batches, t0, t1);
    if traced {
      r := ReduceTraced(bdf, w, t0, t1, host.value);
    } else {
      var (n, b) := host.value;
      r := Success((Row(bdf, n, b, n * USEFUL_BYTES, b * USEFUL_BYTES, n, b, None, None), []));
    }
  }

  /** One device of a phase. */
  method ReduceWorker(p: RawPhase, d: Device) returns (r: Result<(Row, seq<Interval>), CheckError>)
    requires p.t0 < p.t1
    ensures r.Success? <==> WorkerOk(p, d)
    ensures r.Success? ==> RowHolds(p.workers[d.worker].trace, r.value.0, p.entry.traced, p.t0, p.t1)
                           && r.value.0.bdf == d.bdf && Normal(r.value.1)
    ensures r.Success? && p.entry.traced ==>
              forall x :: Covers(r.value.1, x) <==> p.t0 <= x < p.t1 && CertainlyBusy(p.workers[d.worker].trace, x)
  {
    if d.worker !in p.workers {
      return Failure(ResultMissing);
    }
    var checked := CheckReport(d, p, p.workers[d.worker].report);
    if checked.Failure? {
      return Failure(checked.error);
    }
    r := ReduceTrace(d.bdf, p.workers[d.worker].trace, p.entry.traced, p.t0, p.t1);
  }

  // ----- the phase

  /** The first n devices are reduced: one row each, and allBusy is where they are all certainly busy. */
  ghost predicate ReducedUpTo(p: RawPhase, n: nat, rows: seq<Row>, allBusy: seq<Interval>)
    requires n <= |p.entry.devices|
  {
    |rows| == n && Normal(allBusy)
    && (forall i | 0 <= i < n :: RowOfDevice(p, p.entry.devices[i], rows[i]))
    && forall x :: Covers(allBusy, x) <==> p.t0 <= x < p.t1 && BusyTogether(p, n, x)
  }

  ghost predicate RowOfDevice(p: RawPhase, d: Device, row: Row) {
    WorkerOk(p, d) && row.bdf == d.bdf && RowHolds(p.workers[d.worker].trace, row, p.entry.traced, p.t0, p.t1)
  }

  ghost predicate BusyTogether(p: RawPhase, n: nat, x: int)
    requires n <= |p.entry.devices|
  {
    p.entry.traced ==> forall i | 0 <= i < n :: BusyDevice(p, p.entry.devices[i], x)
  }

  ghost predicate BusyDevice(p: RawPhase, d: Device, x: int) {
    d.worker in p.workers && CertainlyBusy(p.workers[d.worker].trace, x)
  }

  /** Reduce a phase: accepted are exactly the acceptable ones. The rows hold for every consistent
      offset; for a traced phase the overlap is the time for which all workers are certainly busy,
      and they are truly all active for at least that long, whatever the offsets of their clocks. */
  method ReducePhase(p: RawPhase) returns (r: Result<Reduced, CheckError>)
    ensures r.Success? <==> Acceptable(p)
    ensures r.Success? ==> |r.value.rows| == |p.entry.devices|
                           && forall i | 0 <= i < |p.entry.devices| ::
                                RowOfDevice(p, p.entry.devices[i], r.value.rows[i])
    ensures r.Success? && !p.entry.traced ==> r.value.overlap == None
    ensures r.Success? && p.entry.traced ==> r.value.overlap == Some(|AllCertain(Traces(p), p.t0, p.t1)|)
    ensures r.Success? && p.entry.traced ==> forall offsets | ConsistentOffsets(Traces(p), offsets) ::
              r.value.overlap.value <= |AllActive(Traces(p), offsets, p.t0, p.t1)|
  {
    var checked := CheckPhase(p);
    if checked.Failure? {
      return Failure(checked.error);
    }
    var allBusy: seq<Interval> := [(p.t0, p.t1)];
    var rows: seq<Row> := [];
    var i := 0;
    assert ReducedUpTo(p, 0, rows, allBusy) by {
      assert forall x :: Inside(allBusy[0], x) <==> p.t0 <= x < p.t1;
    }
    while i < |p.entry.devices|
      invariant 0 <= i <= |p.entry.devices| && ReducedUpTo(p, i, rows, allBusy)
    {
      var reduced := ReduceWorker(p, p.entry.devices[i]);
      if reduced.Failure? {
        return Failure(reduced.error);
      }
      var (row, busy) := reduced.value;
      ghost var before := allBusy;
      if p.entry.traced {
        allBusy := Intersect(allBusy, busy);
      }
      ReducedOneMore(p, i, rows, before, row, busy, allBusy);
      rows := rows + [row];
      i := i + 1;
    }
    if !p.entry.traced {
      return Success(Reduced(rows, None));
    }
    var overlap := Duration(allBusy);
    OverlapIsCertain(p, rows, allBusy);
    if 10 * overlap < 9 * WINDOW {
      return Failure(InsufficientOverlap);
    }
    forall offsets | ConsistentOffsets(Traces(p), offsets)
      ensures overlap <= |AllActive(Traces(p), offsets, p.t0, p.t1)|
    {
      OverlapIsSound(Traces(p), offsets, p.t0, p.t1);
    }
    return Success(Reduced(rows, Some(overlap)));
  }

  lemma ReducedOneMore(p: RawPhase, i: nat, rows: seq<Row>, before: seq<Interval>, row: Row, busy: seq<Interval>,
                       after: seq<Interval>)
    requires i < |p.entry.devices| && ReducedUpTo(p, i, rows, before) && RowOfDevice(p, p.entry.devices[i], row)
    requires Normal(after)
    requires p.entry.traced ==>
               forall x :: Covers(busy, x) <==> p.t0 <= x < p.t1 && BusyDevice(p, p.entry.devices[i], x)
    requires p.entry.traced ==> forall x :: Covers(after, x) <==> Common(before, busy, x)
    requires !p.entry.traced ==> after == before
    ensures ReducedUpTo(p, i + 1, rows + [row], after)
  {
    forall x
      ensures Covers(after, x) <==> p.t0 <= x < p.t1 && BusyTogether(p, i + 1, x)
    {
      assert Covers(before, x) <==> p.t0 <= x < p.t1 && BusyTogether(p, i, x);
    }
  }

  lemma OverlapIsCertain(p: RawPhase, rows: seq<Row>, allBusy: seq<Interval>)
    requires p.entry.traced && ReducedUpTo(p, |p.entry.devices|, rows, allBusy)
    ensures forall i | 0 <= i < |p.entry.devices| :: p.entry.devices[i].worker in p.workers
    ensures Points(allBusy) == AllCertain(Traces(p), p.t0, p.t1)
  {
    forall i | 0 <= i < |p.entry.devices|
      ensures p.entry.devices[i].worker in p.workers
    {
      assert RowOfDevice(p, p.entry.devices[i], rows[i]);
    }
    forall x
      ensures x in Points(allBusy) <==> x in AllCertain(Traces(p), p.t0, p.t1)
    {
      assert Covers(allBusy, x) <==> p.t0 <= x < p.t1 && BusyTogether(p, |p.entry.devices|, x);
      if x in AllCertain(Traces(p), p.t0, p.t1) {
        forall i | 0 <= i < |p.entry.devices|
          ensures BusyDevice(p, p.entry.devices[i], x)
        {
          assert CertainlyBusy(Traces(p)[i], x);
        }
      }
      if x in Points(allBusy) {
        forall i | 0 <= i < |Traces(p)|
          ensures CertainlyBusy(Traces(p)[i], x)
        {
          assert BusyDevice(p, p.entry.devices[i], x);
        }
      }
    }
  }

  /** At the instants at which all workers are certainly busy, they are all active, for every choice
      of consistent offsets. */
  lemma OverlapIsSound(traces: seq<Trace>, offsets: seq<int>, t0: int, t1: int)
    requires ConsistentOffsets(traces, offsets)
    ensures |AllCertain(traces, t0, t1)| <= |AllActive(traces, offsets, t0, t1)|
  {
    forall x | x in AllCertain(traces, t0, t1)
      ensures x in AllActive(traces, offsets, t0, t1)
    {
      forall w | 0 <= w < |traces|
        ensures ActiveAt(traces[w].kernels, offsets[w], x)
      {
        CertainIsActive(traces[w], offsets[w], x);
      }
    }
    MorePoints(AllCertain(traces, t0, t1), AllActive(traces, offsets, t0, t1));
  }

  // ----- the phase as the pairing sees it

  /** The kernels that the rate of a device rests on: those certainly inside the window, or without a
      trace the launches of the batches inside it. */
  ghost function CompleteKernels(w: Trace, traced: bool, t0: int, t1: int): int {
    if traced then Count(w.kernels, CertainlyInside(w, t0, t1)) else HostComplete(w.batches, t0, t1)
  }

  /** The rate in 10^9 bytes per second: 24 bytes for each of 33554432 elements of these kernels, over
      the two seconds of the window. */
  ghost predicate RateHolds(rate: real, w: Trace, traced: bool, t0: int, t1: int) {
    rate * 2000000000.0 == (CompleteKernels(w, traced, t0, t1) * 805306368) as real
  }

  /** Bytes moved, as a rate over the two seconds of the window. */
  function RateOf(row: Row): real { row.usefulBytes as real / 2.0 / 1000000000.0 }

  lemma RateOfRow(w: Trace, row: Row, traced: bool, t0: int, t1: int)
    requires RowHolds(w, row, traced, t0, t1)
    ensures RateHolds(RateOf(row), w, traced, t0, t1) && 0.0 < RateOf(row)
  {}

  /** The rate never exceeds the truth: for every consistent offset, the bytes moved by the kernels
      that truly ran inside the window. */
  lemma RateIsCertain(rate: real, w: Trace, t0: int, t1: int, d: int)
    requires RateHolds(rate, w, true, t0, t1) && ConsistentFor(w, d)
    ensures rate * 2000000000.0 <= (Count(w.kernels, InsideFor(d, t0, t1)) * 805306368) as real
  {
    CountMonotone(w.kernels, CertainlyInside(w, t0, t1), InsideFor(d, t0, t1));
  }

  /** Neither does the rate without a trace, wherever the launches of a batch fell. */
  lemma HostRateIsCertain(rate: real, w: Trace, t0: int, t1: int, truth: seq<seq<Interval>>)
    requires RateHolds(rate, w, false, t0, t1) && BatchesFrom(w.batches, 0) && Plausible(w.batches, truth)
    ensures rate * 2000000000.0 <= (AllLaunchesInside(truth, t0, t1) * 805306368) as real
  {
    HostCountsBracketTruth(w.batches, 0, truth, t0, t1);
  }

  function RowsFor(rows: seq<Row>): (r: seq<DeviceRow>)
    ensures |r| == |rows| && forall i | 0 <= i < |rows| :: r[i] == DeviceRow(rows[i].bdf, RateOf(rows[i]))
  {
    seq(|rows|, i requires 0 <= i < |rows| => DeviceRow(rows[i].bdf, RateOf(rows[i])))
  }

  /** What the pairing relies on: one row per device, in order, with a positive rate. */
  ghost predicate WellReduced(p: Phase) {
    |p.rows| == |p.entry.devices|
    && forall i | 0 <= i < |p.rows| :: p.rows[i].bdf == p.entry.devices[i].bdf && 0.0 < p.rows[i].rate
  }

  /** The phase as it was planned, with the rates of its devices. */
  ghost predicate ReducedTo(raw: RawPhase, p: Phase) {
    p.entry == raw.entry && p.place == raw.place && WellReduced(p)
    && forall i | 0 <= i < |p.rows| :: DeviceRate(raw, i, p.rows[i].rate)
  }

  ghost predicate DeviceRate(raw: RawPhase, i: nat, rate: real) {
    i < |raw.entry.devices| && raw.entry.devices[i].worker in raw.workers
    && RateHolds(rate, raw.workers[raw.entry.devices[i].worker].trace, raw.entry.traced, raw.t0, raw.t1)
  }

  /** An accepted phase comes to the pairing as it was planned, and with the rates of its devices. */
  method AcceptPhase(raw: RawPhase) returns (r: Result<Phase, CheckError>)
    ensures r.Success? <==> Acceptable(raw)
    ensures r.Success? ==> ReducedTo(raw, r.value)
  {
    var reduced := ReducePhase(raw);
    if reduced.Failure? {
      return Failure(reduced.error);
    }
    var p := Phase(raw.entry, raw.place, RowsFor(reduced.value.rows));
    forall i | 0 <= i < |p.rows|
      ensures p.rows[i].bdf == raw.entry.devices[i].bdf && 0.0 < p.rows[i].rate && DeviceRate(raw, i, p.rows[i].rate)
    {
      assert RowOfDevice(raw, raw.entry.devices[i], reduced.value.rows[i]);
      RateOfRow(raw.workers[raw.entry.devices[i].worker].trace, reduced.value.rows[i], raw.entry.traced, raw.t0,
                raw.t1);
    }
    return Success(p);
  }

  // ----- the sum over the devices

  function TotalUseful(rows: seq<Row>): int {
    if rows == [] then 0 else rows[0].usefulBytes + TotalUseful(rows[1..])
  }

  function TotalBoundary(rows: seq<Row>): int {
    if rows == [] then 0 else rows[0].boundaryBytes + TotalBoundary(rows[1..])
  }

  /** Bytes moved by the kernels that truly ran inside the window. */
  ghost function TrueBytes(workers: seq<Trace>, offsets: seq<int>, t0: int, t1: int): int
    requires |offsets| == |workers|
  {
    if workers == [] then 0
    else
      Count(workers[0].kernels, InsideFor(offsets[0], t0, t1)) * 805306368
      + TrueBytes(workers[1..], offsets[1..], t0, t1)
  }

  /** The aggregate: useful bytes never exceed the true bytes, which never exceed them by more than
      the boundary bytes. */
  lemma {:induction false} AggregateBracketsTruth(workers: seq<Trace>, rows: seq<Row>, offsets: seq<int>, t0: int,
                                                  t1: int)
    requires ConsistentOffsets(workers, offsets) && |rows| == |workers|
    requires forall w | 0 <= w < |workers| :: RowHolds(workers[w], rows[w], true, t0, t1)
    ensures TotalUseful(rows) <= TrueBytes(workers, offsets, t0, t1) <= TotalUseful(rows) + TotalBoundary(rows)
    decreases |workers|
  {
    if workers != [] {
      FirstRowBracket(workers[0], rows[0], offsets[0], t0, t1);
      AggregateBracketsTruth(workers[1..], rows[1..], offsets[1..], t0, t1);
    }
  }

  lemma FirstRowBracket(w: Trace, row: Row, d: int, t0: int, t1: int)
    requires RowHolds(w, row, true, t0, t1) && ConsistentFor(w, d)
    ensures row.usefulBytes <= Count(w.kernels, InsideFor(d, t0, t1)) * 805306368
            <= row.usefulBytes + row.boundaryBytes
  {
    assert CountHolds(w, row, d, t0, t1);
    Scaled(row.complete, Count(w.kernels, InsideFor(d, t0, t1)), row.boundary, 805306368);
  }

  lemma Scaled(a: int, n: int, b: int, u: nat)
    requires a <= n <= a + b
    ensures a * u <= n * u <= a * u + b * u
  {
    MulMono(a, n, u);
    MulMono(n, a + b, u);
  }
}
