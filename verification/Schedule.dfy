/** The planner (experiments/triad_partition_controlled/run_campaign.py): the predeclared list of
    phases, six traced trials and one untraced round of every configuration. */
module Schedule {
  import opened Numbers

  datatype Device = Device(worker: string, bdf: string, uuid: string, package: string, cpu: nat, cus: nat)
  datatype Config = Config(allocator: string, xnack: bool)
  datatype Condition = Isolated | Concurrent

  datatype Entry = Entry(path: string, repeat: nat, config: Config, traced: bool, condition: Condition,
                         devices: seq<Device>)

  const REPEATS: nat := 7
  const TRACED_REPEATS: nat := 6

  /** The configurations of the campaign. */
  const CONFIGS: seq<Config> := [
    Config("malloc", true), Config("hipMalloc", false), Config("hipMalloc", true),
    Config("hipHostMalloc", false), Config("hipHostMalloc", true),
    Config("hipMallocManaged", false), Config("hipMallocManaged", true)]

  /** What the plan needs of its configurations: seven different ones, with plain names. */
  ghost predicate GoodConfigs(configs: seq<Config>) {
    |configs| == 7
    && (forall i, j | 0 <= i < j < |configs| :: configs[i] != configs[j])
    && forall i | 0 <= i < |configs| :: '/' !in configs[i].allocator
  }

  lemma CampaignConfigsAreGood()
    ensures GoodConfigs(CONFIGS)
  {
    forall i | 0 <= i < |CONFIGS|
      ensures '/' !in CONFIGS[i].allocator && |CONFIGS[i].allocator| == NameLength(i)
              && CONFIGS[i].xnack == (i % 2 == 0)
    {
      ConfigShape(i);
    }
  }

  function NameLength(i: nat): nat {
    if i == 0 then 6 else if i <= 2 then 9 else if i <= 4 then 13 else 16
  }

  lemma ConfigShape(i: nat)
    requires i < |CONFIGS|
    ensures '/' !in CONFIGS[i].allocator && |CONFIGS[i].allocator| == NameLength(i) && CONFIGS[i].xnack == (i % 2 == 0)
  {
    var c := CONFIGS[i];
    if i == 0 {
      assert c == Config("malloc", true);
    } else if i <= 2 {
      assert c.allocator == "hipMalloc";
    } else if i <= 4 {
      assert c.allocator == "hipHostMalloc";
    } else {
      assert c.allocator == "hipMallocManaged";
    }
  }

  function Rotate<T>(s: seq<T>, k: nat): (r: seq<T>)
    requires k <= |s|
    ensures |r| == |s|
  {
    s[k..] + s[..k]
  }

  // ----- names

  function ConfigName(c: Config): string {
    c.allocator + "_x" + (if c.xnack then "1" else "0")
  }

  function Digit(d: nat): char
    requires d < 10
  {
    '0' + d as char
  }

  function TrialName(repeat: nat): string
    requires 1 <= repeat <= REPEATS
  {
    if repeat <= TRACED_REPEATS then "trial_0" + [Digit(repeat)] else "sensitivity"
  }

  function PhaseName(condition: Condition, devices: seq<Device>): string
    requires condition.Isolated? ==> |devices| == 1
  {
    match condition
    case Concurrent => "concurrent"
    case Isolated => "isolated_" + devices[0].worker
  }

  function Path(c: Config, repeat: nat, name: string): string
    requires 1 <= repeat <= REPEATS
  {
    ConfigName(c) + "/" + (TrialName(repeat) + "/" + name)
  }

  lemma {:induction false} SlashSplits(a: string, b: string, x: string, y: string)
    requires '/' !in a && '/' !in b && a + "/" + x == b + "/" + y
    ensures a == b && x == y
    decreases |a|
  {
    var s, t := a + "/" + x, b + "/" + y;
    assert s[0] == (if a == [] then '/' else a[0]) && t[0] == (if b == [] then '/' else b[0]);
    if a == [] {
      assert s[1..] == x && t[1..] == y;
    } else {
      assert s[1..] == a[1..] + "/" + x && t[1..] == b[1..] + "/" + y;
      SlashSplits(a[1..], b[1..], x, y);
      assert a == [a[0]] + a[1..] && b == [b[0]] + b[1..];
    }
  }

  lemma ConfigNameInjective(c: Config, d: Config)
    requires ConfigName(c) == ConfigName(d)
    ensures c == d
  {
    var s := ConfigName(c);
    assert s[|s| - 1] == (if c.xnack then '1' else '0');
    assert s[|s| - 1] == (if d.xnack then '1' else '0');
    assert s[..|s| - 3] == c.allocator && s[..|s| - 3] == d.allocator;
  }

  lemma TrialNameInjective(r: nat, q: nat)
    requires 1 <= r <= REPEATS && 1 <= q <= REPEATS && TrialName(r) == TrialName(q)
    ensures r == q
  {
    var s, t := TrialName(r), TrialName(q);
    assert r <= TRACED_REPEATS ==> s[0] == 't' && s[7] == Digit(r);
    assert q <= TRACED_REPEATS ==> t[0] == 't' && t[7] == Digit(q);
    assert r > TRACED_REPEATS ==> s[0] == 's';
    assert q > TRACED_REPEATS ==> t[0] == 's';
  }

  /** The path tells configuration, repeat and phase name apart. */
  lemma PathInjective(c: Config, r: nat, x: string, d: Config, q: nat, y: string)
    requires '/' !in c.allocator && '/' !in d.allocator && 1 <= r <= REPEATS && 1 <= q <= REPEATS
    requires Path(c, r, x) == Path(d, q, y)
    ensures c == d && r == q && x == y
  {
    SlashSplits(ConfigName(c), ConfigName(d), TrialName(r) + "/" + x, TrialName(q) + "/" + y);
    ConfigNameInjective(c, d);
    SlashSplits(TrialName(r), TrialName(q), x, y);
    TrialNameInjective(r, q);
  }

  // ----- blocks: the phases of one configuration in one repeat

  /** Block b of the schedule belongs to repeat b/7 + 1 and, after rotation, to this configuration. */
  function ConfigIndex(b: nat): (i: nat)
    ensures i < 7
  {
    (b / 7 + b % 7) % 7
  }

  function RepeatOf(b: nat): nat { b / 7 + 1 }

  function MakeEntry(c: Config, r: nat, condition: Condition, selected: seq<Device>): Entry
    requires 1 <= r <= REPEATS && (condition.Isolated? ==> |selected| == 1)
  {
    Entry(Path(c, r, PhaseName(condition, selected)), r, c, r <= TRACED_REPEATS, condition, selected)
  }

  /** Position of the concurrent phase: last in odd repeats, first in even ones. */
  function ConcurrentAt(devices: seq<Device>, b: nat): nat {
    if RepeatOf(b) % 2 == 1 then |devices| else 0
  }

  /** By how much the devices are rotated in block b. */
  function Shift(devices: seq<Device>, b: nat): (k: nat)
    requires 0 < |devices|
    ensures k < |devices|
  {
    (b / 7 + b % 7) % |devices|
  }

  /** Phase k of the block: every device alone, in rotated order, and all devices together. */
  function PhaseAt(devices: seq<Device>, b: nat, k: nat): (r: (Condition, seq<Device>))
    requires 0 < |devices| && k <= |devices|
    ensures r.0.Isolated? ==> |r.1| == 1
  {
    var c := ConcurrentAt(devices, b);
    if k == c then (Concurrent, devices)
    else (Isolated, [Rotate(devices, Shift(devices, b))[if k < c then k else k - 1]])
  }

  function BlockEntry(devices: seq<Device>, configs: seq<Config>, b: nat, k: nat): Entry
    requires 0 < |devices| && |configs| == 7 && b < 49 && k <= |devices|
  {
    MakeEntry(configs[ConfigIndex(b)], RepeatOf(b), PhaseAt(devices, b, k).0, PhaseAt(devices, b, k).1)
  }

  function Block(devices: seq<Device>, configs: seq<Config>, b: nat): (r: seq<Entry>)
    requires 0 < |devices| && |configs| == 7 && b < 49
    ensures |r| == |devices| + 1 && forall k | 0 <= k <= |devices| :: r[k] == BlockEntry(devices, configs, b, k)
  {
    seq(|devices| + 1, k requires 0 <= k <= |devices| => BlockEntry(devices, configs, b, k))
  }

  function Plan(devices: seq<Device>, configs: seq<Config>, blocks: nat): seq<Entry>
    requires 0 < |devices| && |configs| == 7 && blocks <= 49
  {
    if blocks == 0 then [] else Plan(devices, configs, blocks - 1) + Block(devices, configs, blocks - 1)
  }

  /** Entry k of configuration number c of repeat r: odd repeats end with all devices together, even
      ones begin with them; the configurations are rotated by one from repeat to repeat, and the
      devices by one from configuration to configuration and from repeat to repeat. */
  ghost predicate EntryAsPlanned(e: Entry, devices: seq<Device>, configs: seq<Config>, r: nat, c: nat, k: nat)
    requires 0 < |devices| && |configs| == 7 && 1 <= r <= 7 && c < 7 && k <= |devices|
  {
    var n := |devices|;
    var first := if r % 2 == 0 then 1 else 0;
    e.repeat == r && (e.traced <==> r < 7) && e.config == configs[(r - 1 + c) % 7]
    && (if k == (if r % 2 == 0 then 0 else n)
        then e.condition == Concurrent && e.devices == devices
        else e.condition == Isolated && e.devices == [devices[(r - 1 + c + k - first) % n]])
    && PathAsPlanned(e, r)
  }

  /** The directory of an entry, as in malloc_x1/trial_03/isolated_gpu0. */
  ghost predicate PathAsPlanned(e: Entry, r: nat)
    requires r <= 7 && (e.condition.Isolated? ==> |e.devices| == 1)
  {
    e.path == e.config.allocator + ((if e.config.xnack then "_x1/" else "_x0/")
              + ((if r < 7 then "trial_0" + ['0' + r as char] + "/" else "sensitivity/")
                 + (if e.condition.Concurrent? then "concurrent" else "isolated_" + e.devices[0].worker)))
  }

  lemma EntryPath(c: Config, r: nat, condition: Condition, selected: seq<Device>)
    requires 1 <= r <= 7 && (condition.Isolated? ==> |selected| == 1)
    ensures PathAsPlanned(MakeEntry(c, r, condition, selected), r)
  {
    var name := PhaseName(condition, selected);
    var trial := TrialName(r) + "/";
    assert trial == if r < 7 then "trial_0" + ['0' + r as char] + "/" else "sensitivity/";
    assert ConfigName(c) + "/" == c.allocator + (if c.xnack then "_x1/" else "_x0/");
    Reassociated(c.allocator, if c.xnack then "_x1/" else "_x0/", trial, name);
    assert ConfigName(c) + "/" + (TrialName(r) + "/" + name) == (ConfigName(c) + "/") + (trial + name);
  }

  lemma Reassociated(a: string, b: string, c: string, d: string)
    ensures (a + b) + (c + d) == a + (b + (c + d))
  {}

  /** The plan, entry by entry. */
  ghost predicate AsPlanned(rows: seq<Entry>, devices: seq<Device>, configs: seq<Config>)
    requires 0 < |devices| && |configs| == 7
  {
    |rows| == 49 * (|devices| + 1)
    && forall r: nat, c: nat, k: nat | 1 <= r <= 7 && c < 7 && k <= |devices| ::
         PlannedAt(rows, devices, configs, r, c, k)
  }

  ghost predicate PlannedAt(rows: seq<Entry>, devices: seq<Device>, configs: seq<Config>, r: nat, c: nat, k: nat)
    requires 0 < |devices| && |configs| == 7 && 1 <= r <= 7 && c < 7 && k <= |devices|
  {
    var p := ((r - 1) * 7 + c) * (|devices| + 1) + k;
    0 <= p < |rows| && EntryAsPlanned(rows[p], devices, configs, r, c, k)
  }

  lemma RotatedDevice(devices: seq<Device>, shift: nat, i: nat)
    requires 0 < |devices| && i < |devices|
    ensures Rotate(devices, shift % |devices|)[i] == devices[(shift + i) % |devices|]
  {
    var n := |devices|;
    var s := shift % n;
    DivBelow(shift, 0, n);
    var j := if s + i < n then s + i else s + i - n;
    DivModUnique(shift + i, n, if s + i < n then shift / n else shift / n + 1, j);
  }

  lemma BlockAsPlanned(devices: seq<Device>, configs: seq<Config>, b: nat, r: nat, c: nat, k: nat)
    requires 0 < |devices| && |configs| == 7 && 1 <= r <= 7 && c < 7 && k <= |devices| && b == (r - 1) * 7 + c
    ensures b < 49 && EntryAsPlanned(BlockEntry(devices, configs, b, k), devices, configs, r, c, k)
  {
    BlockNumber(r, c);
    PhaseAsPlanned(devices, b, r, c, k);
    EntryPath(configs[ConfigIndex(b)], r, PhaseAt(devices, b, k).0, PhaseAt(devices, b, k).1);
  }

  lemma PhaseAsPlanned(devices: seq<Device>, b: nat, r: nat, c: nat, k: nat)
    requires 0 < |devices| && 1 <= r && k <= |devices| && RepeatOf(b) == r && b / 7 + b % 7 == r - 1 + c
    ensures var first := if r % 2 == 0 then 1 else 0;
            PhaseAt(devices, b, k) ==
            if k == (if r % 2 == 0 then 0 else |devices|) then (Concurrent, devices)
            else (Isolated, [devices[(r - 1 + c + k - first) % |devices|]])
  {
    var first := if r % 2 == 0 then 1 else 0;
    if k != (if r % 2 == 0 then 0 else |devices|) {
      RotatedDevice(devices, r - 1 + c, k - first);
    }
  }

  lemma PlanAsPlanned(devices: seq<Device>, configs: seq<Config>)
    requires 0 < |devices| && |configs| == 7
    ensures AsPlanned(Plan(devices, configs, 49), devices, configs)
  {
    PlanSize(devices, configs, 49);
    forall r: nat, c: nat, k: nat | 1 <= r <= 7 && c < 7 && k <= |devices|
      ensures PlannedAt(Plan(devices, configs, 49), devices, configs, r, c, k)
    {
      PlannedEntry(devices, configs, r, c, k);
    }
  }

  lemma PlannedEntry(devices: seq<Device>, configs: seq<Config>, r: nat, c: nat, k: nat)
    requires 0 < |devices| && |configs| == 7 && 1 <= r <= 7 && c < 7 && k <= |devices|
    ensures PlannedAt(Plan(devices, configs, 49), devices, configs, r, c, k)
  {
    var b := (r - 1) * 7 + c;
    var p := b * (|devices| + 1) + k;
    BlockAsPlanned(devices, configs, b, r, c, k);
    BlockIndex(b, k, 49, |devices| + 1);
    PlanEntry(devices, configs, b, k, p);
    PlannedAtPosition(Plan(devices, configs, 49), devices, configs, r, c, k, b, p);
  }

  lemma PlannedAtPosition(rows: seq<Entry>, devices: seq<Device>, configs: seq<Config>, r: nat, c: nat, k: nat, b: nat,
                          p: nat)
    requires 0 < |devices| && |configs| == 7 && 1 <= r <= 7 && c < 7 && k <= |devices|
    requires b == (r - 1) * 7 + c && p == b * (|devices| + 1) + k && p < |rows|
    requires EntryAsPlanned(rows[p], devices, configs, r, c, k)
    ensures PlannedAt(rows, devices, configs, r, c, k)
  {}

  lemma PlanEntry(devices: seq<Device>, configs: seq<Config>, b: nat, k: nat, p: nat)
    requires 0 < |devices| && |configs| == 7 && b < 49 && k <= |devices| && p == b * (|devices| + 1) + k
    ensures p < |Plan(devices, configs, 49)|
    ensures Plan(devices, configs, 49)[p] == BlockEntry(devices, configs, b, k)
  {
    BlockIndex(b, k, 49, |devices| + 1);
    PlanSize(devices, configs, 49);
    PlanAt(devices, configs, 49, p);
  }

  /** The rotation is fair to the configurations: each is at each place of the order in exactly one of
      the seven repeats. */
  lemma EachPlaceOnce(i: nat, c: nat, q: nat) returns (r: nat)
    requires i < 7 && c < 7
    ensures 1 <= r <= 7 && (r - 1 + c) % 7 == i
    ensures 1 <= q <= 7 && (q - 1 + c) % 7 == i ==> q == r
  {
    r := (i + 7 - c) % 7 + 1;
  }

  /** The planned phases, in the order in which they are run. */
  method MakeSchedule(devices: seq<Device>, configs: seq<Config>) returns (rows: seq<Entry>)
    requires 0 < |devices| && |configs| == 7
    ensures rows == Plan(devices, configs, 49) && AsPlanned(rows, devices, configs)
  {
    PlanAsPlanned(devices, configs);
    rows := [];
    var repeat := 1;
    while repeat < 8
      invariant 1 <= repeat <= 8 && rows == Plan(devices, configs, (repeat - 1) * 7)
    {
      rows := AddRepeat(devices, configs, repeat, rows);
      repeat := repeat + 1;
    }
  }

  /** All configurations of one repeat, in rotated order. */
  method AddRepeat(devices: seq<Device>, configs: seq<Config>, repeat: nat, rows: seq<Entry>)
    returns (rows': seq<Entry>)
    requires 0 < |devices| && |configs| == 7 && 1 <= repeat <= REPEATS
    requires rows == Plan(devices, configs, (repeat - 1) * 7)
    ensures rows' == Plan(devices, configs, repeat * 7)
  {
    rows' := rows;
    var order := Rotate(configs, (repeat - 1) % 7);
    var configIndex := 0;
    while configIndex < |order|
      invariant 0 <= configIndex <= |order| == 7
      invariant rows' == Plan(devices, configs, (repeat - 1) * 7 + configIndex)
    {
      ghost var b := Numbered(configs, repeat, configIndex);
      rows' := AddConfig(devices, configs, repeat, configIndex, order[configIndex], rows', b);
      configIndex := configIndex + 1;
    }
  }

  lemma Numbered(configs: seq<Config>, repeat: nat, configIndex: nat) returns (b: nat)
    requires |configs| == 7 && 1 <= repeat <= REPEATS && configIndex < 7
    ensures b == (repeat - 1) * 7 + configIndex < 49 && RepeatOf(b) == repeat
    ensures Rotate(configs, (repeat - 1) % 7)[configIndex] == configs[ConfigIndex(b)]
    ensures b / 7 + b % 7 == repeat - 1 + configIndex
  {
    b := (repeat - 1) * 7 + configIndex;
    RotatedAt(configs, repeat - 1, configIndex);
    BlockNumber(repeat, configIndex);
  }

  /** One configuration of one repeat: block b of the plan. */
  method AddConfig(devices: seq<Device>, configs: seq<Config>, repeat: nat, configIndex: nat, config: Config,
                   rows: seq<Entry>, ghost b: nat)
    returns (rows': seq<Entry>)
    requires 0 < |devices| && |configs| == 7 && 1 <= repeat <= REPEATS && b < 49
    requires RepeatOf(b) == repeat && b / 7 + b % 7 == repeat - 1 + configIndex && config == configs[ConfigIndex(b)]
    requires rows == Plan(devices, configs, b)
    ensures rows' == Plan(devices, configs, b + 1)
  {
    var phases := MakePhases(devices, repeat, configIndex, b);
    var block := MakeBlock(devices, configs, repeat, config, phases, b);
    PlanMore(devices, configs, b);
    rows' := rows + block;
  }

  lemma PlanMore(devices: seq<Device>, configs: seq<Config>, b: nat)
    requires 0 < |devices| && |configs| == 7 && b < 49
    ensures Plan(devices, configs, b + 1) == Plan(devices, configs, b) + Block(devices, configs, b)
  {}

  lemma RotatedAt(configs: seq<Config>, k: nat, i: nat)
    requires |configs| == 7 && k < 7 && i < 7
    ensures Rotate(configs, k % 7)[i] == configs[(k + i) % 7]
  {
    assert (k + i) % 7 == if k + i < 7 then k + i else k + i - 7;
  }

  /** The phases of one configuration in one repeat: block b of the plan. */
  method MakeBlock(devices: seq<Device>, configs: seq<Config>, repeat: nat, config: Config,
                   phases: seq<(Condition, seq<Device>)>, ghost b: nat)
    returns (rows: seq<Entry>)
    requires 0 < |devices| && |configs| == 7 && 1 <= repeat <= REPEATS && b < 49
    requires RepeatOf(b) == repeat && config == configs[ConfigIndex(b)]
    requires |phases| == |devices| + 1 && forall k | 0 <= k <= |devices| :: phases[k] == PhaseAt(devices, b, k)
    ensures rows == Block(devices, configs, b)
  {
    rows := [];
    var k := 0;
    while k < |phases|
      invariant 0 <= k <= |phases| && |rows| == k
      invariant forall i | 0 <= i < k :: rows[i] == Block(devices, configs, b)[i]
    {
      var (condition, selected) := phases[k];
      EntryOfBlock(devices, configs, b, k);
      rows := rows + [MakeEntry(config, repeat, condition, selected)];
      k := k + 1;
    }
  }

  lemma EntryOfBlock(devices: seq<Device>, configs: seq<Config>, b: nat, k: nat)
    requires 0 < |devices| && |configs| == 7 && b < 49 && k <= |devices|
    ensures var (condition, selected) := PhaseAt(devices, b, k);
            Block(devices, configs, b)[k] == MakeEntry(configs[ConfigIndex(b)], RepeatOf(b), condition, selected)
  {}

  lemma BlockNumber(repeat: nat, configIndex: nat)
    requires 1 <= repeat <= REPEATS && configIndex < 7
    ensures var b := (repeat - 1) * 7 + configIndex;
            b < 49 && b / 7 == repeat - 1 && b % 7 == configIndex
            && RepeatOf(b) == repeat && ConfigIndex(b) == (repeat - 1 + configIndex) % 7
  {}

  /** Conditions and devices of the phases of a block, in order. */
  method MakePhases(devices: seq<Device>, repeat: nat, configIndex: nat, ghost b: nat)
    returns (phases: seq<(Condition, seq<Device>)>)
    requires 0 < |devices| && 1 <= repeat && RepeatOf(b) == repeat && b / 7 + b % 7 == repeat - 1 + configIndex
    ensures |phases| == |devices| + 1
    ensures forall k | 0 <= k <= |devices| :: phases[k] == PhaseAt(devices, b, k)
  {
    var shift := (repeat - 1 + configIndex) % |devices|;
    var ordered := Rotate(devices, shift);
    phases := seq(|ordered|, i requires 0 <= i < |ordered| => (Isolated, [ordered[i]]));
    if repeat % 2 != 0 {
      phases := phases + [(Concurrent, devices)];
    } else {
      phases := [(Concurrent, devices)] + phases;
    }
    PhasesInOrder(devices, b, ordered, phases);
  }

  lemma PhasesInOrder(devices: seq<Device>, b: nat, ordered: seq<Device>, phases: seq<(Condition, seq<Device>)>)
    requires 0 < |devices| && ordered == Rotate(devices, Shift(devices, b))
    requires var c := ConcurrentAt(devices, b);
             |phases| == |devices| + 1 && phases[c] == (Concurrent, devices)
             && forall k | 0 <= k <= |devices| && k != c ::
                  phases[k] == (Isolated, [ordered[if k < c then k else k - 1]])
    ensures forall k | 0 <= k <= |devices| :: phases[k] == PhaseAt(devices, b, k)
  {}

  // ----- properties of the plan

  /** 49 blocks of one phase per device and one with all of them. */
  lemma {:induction false} PlanSize(devices: seq<Device>, configs: seq<Config>, blocks: nat)
    requires 0 < |devices| && |configs| == 7 && blocks <= 49
    ensures |Plan(devices, configs, blocks)| == blocks * (|devices| + 1)
  {
    if blocks != 0 {
      PlanSize(devices, configs, blocks - 1);
      OneBlockMore(blocks, |devices| + 1);
      assert |Plan(devices, configs, blocks)| ==
               |Plan(devices, configs, blocks - 1)| + |Block(devices, configs, blocks - 1)|;
    }
  }

  lemma OneBlockMore(blocks: nat, m: nat)
    requires 0 < blocks
    ensures blocks * m == (blocks - 1) * m + m
  {}

  /** Entry p of the plan is entry p % (n+1) of block p / (n+1). */
  lemma {:induction false} PlanAt(devices: seq<Device>, configs: seq<Config>, blocks: nat, p: nat)
    requires 0 < |devices| && |configs| == 7 && blocks <= 49 && p < |Plan(devices, configs, blocks)|
    ensures var m := |devices| + 1;
            0 <= p / m < blocks && Plan(devices, configs, blocks)[p] == BlockEntry(devices, configs, p / m, p % m)
  {
    var m := |devices| + 1;
    PlanSize(devices, configs, blocks - 1);
    PlanSize(devices, configs, blocks);
    OneBlockMore(blocks, m);
    if p < |Plan(devices, configs, blocks - 1)| {
      PlanAt(devices, configs, blocks - 1, p);
    } else {
      DivModUnique(p, m, blocks - 1, p - (blocks - 1) * m);
    }
  }

  ghost predicate DistinctWorkers(devices: seq<Device>) {
    forall i, j | 0 <= i < j < |devices| :: devices[i].worker != devices[j].worker
  }

  lemma SameWorker(devices: seq<Device>, i: nat, j: nat)
    requires DistinctWorkers(devices) && i < |devices| && j < |devices| && devices[i].worker == devices[j].worker
    ensures i == j
  {}

  lemma RotateKeeps(devices: seq<Device>, k: nat)
    requires k <= |devices| && DistinctWorkers(devices)
    ensures DistinctWorkers(Rotate(devices, k))
  {}

  /** Entries of the plan with the same path have the same place in the same block. */
  lemma SamePath(devices: seq<Device>, configs: seq<Config>, a: nat, i: nat, b: nat, j: nat)
    requires 0 < |devices| && DistinctWorkers(devices) && GoodConfigs(configs)
    requires a < 49 && b < 49 && i <= |devices| && j <= |devices|
    requires BlockEntry(devices, configs, a, i).path == BlockEntry(devices, configs, b, j).path
    ensures a == b && i == j
  {
    var (c, s) := PhaseAt(devices, a, i);
    var (d, t) := PhaseAt(devices, b, j);
    var v, w := configs[ConfigIndex(a)], configs[ConfigIndex(b)];
    PathInjective(v, RepeatOf(a), PhaseName(c, s), w, RepeatOf(b), PhaseName(d, t));
    SameConfig(configs, ConfigIndex(a), ConfigIndex(b));
    SameBlock(a, b);
    NamesTell(c, s, d, t);
    PhasesDiffer(devices, a, i, j);
  }

  lemma SameConfig(configs: seq<Config>, i: nat, j: nat)
    requires GoodConfigs(configs) && i < |configs| && j < |configs| && configs[i] == configs[j]
    ensures i == j
  {}

  /** Different phases of a block differ in their condition or in their device. */
  lemma PhasesDiffer(devices: seq<Device>, b: nat, i: nat, j: nat)
    requires 0 < |devices| && DistinctWorkers(devices) && i <= |devices| && j <= |devices|
    requires var (c, s) := PhaseAt(devices, b, i);
             var (d, t) := PhaseAt(devices, b, j);
             c == d && (c.Isolated? ==> s[0].worker == t[0].worker)
    ensures i == j
  {
    var shift := Shift(devices, b);
    RotateKeeps(devices, shift);
    var k := ConcurrentAt(devices, b);
    if i != k && j != k {
      SameWorker(Rotate(devices, shift), if i < k then i else i - 1, if j < k then j else j - 1);
    }
  }

  lemma NamesTell(c: Condition, s: seq<Device>, d: Condition, t: seq<Device>)
    requires c.Isolated? ==> |s| == 1
    requires d.Isolated? ==> |t| == 1
    requires PhaseName(c, s) == PhaseName(d, t)
    ensures c == d && (c.Isolated? ==> s[0].worker == t[0].worker)
  {
    var x, y := PhaseName(c, s), PhaseName(d, t);
    assert c.Isolated? ==> x[0] == 'i' && x[9..] == s[0].worker;
    assert d.Isolated? ==> y[0] == 'i' && y[9..] == t[0].worker;
    assert c.Concurrent? ==> x[0] == 'c';
    assert d.Concurrent? ==> y[0] == 'c';
  }

  /** No two planned phases share a path, so no phase overwrites another. */
  lemma PathsDistinct(devices: seq<Device>, configs: seq<Config>, p: nat, q: nat)
    requires 0 < |devices| && DistinctWorkers(devices) && GoodConfigs(configs)
    requires p < q < |Plan(devices, configs, 49)|
    ensures Plan(devices, configs, 49)[p].path != Plan(devices, configs, 49)[q].path
  {
    var m := |devices| + 1;
    PlanAt(devices, configs, 49, p);
    PlanAt(devices, configs, 49, q);
    DivBelow(p, 0, m);
    DivBelow(q, 0, m);
    if Plan(devices, configs, 49)[p].path == Plan(devices, configs, 49)[q].path {
      SamePath(devices, configs, p / m, p % m, q / m, q % m);
    }
  }

  /** Repeat and configuration determine the block. */
  lemma SameBlock(a: nat, b: nat)
    requires a < 49 && b < 49 && RepeatOf(a) == RepeatOf(b) && ConfigIndex(a) == ConfigIndex(b)
    ensures a == b
  {}
}
