/** The analyzer's verdict on a whole campaign (experiments/triad_partition_controlled/analyze.py,
    main), and its agreement with the planner: a configuration is complete if and only if every
    traced phase planned for it has been accepted, and a campaign has no issues if and only if all
    planned phases have been. */
module Campaign {
  import opened Wrappers
  import opened Schedule
  import opened Pairing
  import Phases

  /** The reduced phase of an entry, if it exists and is the one that was predeclared. */
  function Accept(e: Entry, place: Place, results: map<string, Phase>): Option<Phase> {
    if e.path in results && results[e.path].entry == e && results[e.path].place == place then Some(results[e.path])
    else None
  }

  function Accepted(entries: seq<Entry>, place: Place, results: map<string, Phase>): seq<Phase> {
    if entries == [] then []
    else
      var n := |entries| - 1;
      Accepted(entries[..n], place, results) +
      (match Accept(entries[n], place, results) case Some(p) => [p] case None => [])
  }

  /** The phases with the given key, in order. */
  function Group(phases: seq<Phase>, key: Key): seq<Phase> {
    if phases == [] then []
    else
      var n := |phases| - 1;
      Group(phases[..n], key) + (if KeyOf(phases[n]) == key then [phases[n]] else [])
  }

  /** Exactly the repeats 1, ..., 6 of a configuration have been paired. */
  ghost predicate Complete(phases: seq<Phase>, expected: set<string>, c: Config) {
    forall r: nat :: Pairable(Group(phases, Key(c, true, r)), expected) <==> 1 <= r <= TRACED_REPEATS
  }

  // ----- the analysis

  method CollectPhases(entries: seq<Entry>, place: Place, results: map<string, Phase>)
    returns (phases: seq<Phase>, issues: nat)
    ensures phases == Accepted(entries, place, results)
    ensures issues == 0 <==> AllAccepted(entries, place, results)
  {
    phases, issues := [], 0;
    var i := 0;
    while i < |entries|
      invariant 0 <= i <= |entries| && phases == Accepted(entries[..i], place, results)
      invariant issues == 0 <==> forall k | 0 <= k < i :: Accept(entries[k], place, results).Some?
    {
      assert entries[..i + 1][..i] == entries[..i];
      match Accept(entries[i], place, results) {
        case Some(p) => phases := phases + [p];
        case None => issues := issues + 1;
      }
      i := i + 1;
    }
    assert entries[..|entries|] == entries;
  }

  method GroupPhases(phases: seq<Phase>) returns (groups: map<Key, seq<Phase>>)
    ensures forall k :: k in groups <==> Group(phases, k) != []
    ensures forall k | k in groups :: groups[k] == Group(phases, k)
  {
    groups := map[];
    var i := 0;
    while i < |phases|
      invariant 0 <= i <= |phases|
      invariant forall k :: k in groups <==> Group(phases[..i], k) != []
      invariant forall k | k in groups :: groups[k] == Group(phases[..i], k)
    {
      assert phases[..i + 1][..i] == phases[..i];
      var key := KeyOf(phases[i]);
      var group := if key in groups then groups[key] else [];
      groups := groups[key := group + [phases[i]]];
      i := i + 1;
    }
    assert phases[..|phases|] == phases;
  }

  /** What pairing a group gives: a row for each device, and how far the rates are apart. */
  datatype PairTable = PairTable(rows: seq<PairRow>, dispersion: Dispersion)

  ghost predicate TableHolds(phases: seq<Phase>, expected: set<string>, t: PairTable) {
    Pairable(phases, expected) && TableRows(phases, t)
    && DispersionHolds(t.dispersion, Rates(WithCondition(phases, Concurrent)[0].rows))
  }

  /** One row for each device of the concurrent phase, against its isolated phase. */
  ghost predicate TableRows(phases: seq<Phase>, t: PairTable) {
    |WithCondition(phases, Concurrent)| == 1
    && RowsHold(t.rows, WithCondition(phases, Concurrent)[0], WithCondition(phases, Isolated))
  }

  method PairGroup(phases: seq<Phase>, expected: set<string>) returns (table: Option<PairTable>)
    ensures table.Some? <==> Pairable(phases, expected)
    ensures table.Some? ==> TableHolds(phases, expected, table.value)
  {
    var pair := PairPhases(phases, expected);
    table := if pair.Success? then Some(PairTable(pair.value.0, pair.value.1)) else None;
  }

  /** Pair every group; the keys of the groups that could be paired, each once, and their tables. */
  method PairGroups(groups: map<Key, seq<Phase>>, expected: set<string>)
    returns (paired: seq<Key>, tables: map<Key, PairTable>, issues: nat)
    ensures forall k :: k in tables <==> k in groups && Pairable(groups[k], expected)
    ensures forall k | k in tables :: TableHolds(groups[k], expected, tables[k])
    ensures issues == 0 <==> forall k | k in groups :: Pairable(groups[k], expected)
    ensures forall k :: k in paired <==> k in groups && Pairable(groups[k], expected)
    ensures forall i, j | 0 <= i < j < |paired| :: paired[i] != paired[j]
  {
    paired, tables, issues := [], map[], 0;
    var todo := groups.Keys;
    while todo != {}
      invariant todo <= groups.Keys
      invariant forall k :: k in tables <==> k in groups && k !in todo && Pairable(groups[k], expected)
      invariant forall k | k in tables :: TableHolds(groups[k], expected, tables[k])
      invariant issues == 0 <==> forall k | k in groups && k !in todo :: Pairable(groups[k], expected)
      invariant forall k :: k in paired <==> k in groups && k !in todo && Pairable(groups[k], expected)
      invariant forall i, j | 0 <= i < j < |paired| :: paired[i] != paired[j]
      decreases todo
    {
      var key :| key in todo;
      var table := PairGroup(groups[key], expected);
      if table.Some? {
        paired := paired + [key];
        tables := tables[key := table.value];
      } else {
        issues := issues + 1;
      }
      todo := todo - {key};
    }
  }

  function RepeatsOf(rows: seq<Key>): set<nat> {
    set k | k in rows :: k.repeat
  }

  /** Of the configuration, exactly the repeats 1, ..., 6 are among the paired keys. */
  ghost predicate KeysComplete(paired: seq<Key>, c: Config) {
    forall r: nat :: Key(c, true, r) in paired <==> 1 <= r <= TRACED_REPEATS
  }

  /** Is the configuration complete? It needs six rows that carry the repeats 1 to 6. */
  method Summarize(paired: seq<Key>, c: Config) returns (complete: bool)
    requires forall i, j | 0 <= i < j < |paired| :: paired[i] != paired[j]
    ensures complete <==> KeysComplete(paired, c)
  {
    var rows: seq<Key> := [];
    var i := 0;
    while i < |paired|
      invariant 0 <= i <= |paired|
      invariant forall k | k in rows :: k in paired[..i] && k.config == c && k.traced
      invariant forall k | k in paired[..i] && k.config == c && k.traced :: k in rows
      invariant forall j, k | 0 <= j < k < |rows| :: rows[j] != rows[k]
    {
      assert paired[..i + 1] == paired[..i] + [paired[i]];
      if paired[i].config == c && paired[i].traced {
        assert paired[i] !in paired[..i];
        rows := rows + [paired[i]];
      }
      i := i + 1;
    }
    assert paired[..|paired|] == paired;
    DistinctRepeats(rows, c);
    assert |{1, 2, 3, 4, 5, 6}| == 6;
    complete := |rows| == TRACED_REPEATS && RepeatsOf(rows) == {1, 2, 3, 4, 5, 6};
    SixRepeats(paired, rows, c);
  }

  /** Different keys of one configuration have different repeats. */
  lemma {:induction false} DistinctRepeats(rows: seq<Key>, c: Config)
    requires forall k | k in rows :: k.config == c && k.traced
    requires forall j, k | 0 <= j < k < |rows| :: rows[j] != rows[k]
    ensures |RepeatsOf(rows)| == |rows|
  {
    if rows != [] {
      var n := |rows| - 1;
      DistinctRepeats(rows[..n], c);
      assert rows[n].repeat !in RepeatsOf(rows[..n]) by {
        forall k | k in rows[..n]
          ensures k.repeat != rows[n].repeat
        {
          var j :| 0 <= j < n && rows[j] == k;
          assert rows[j] != rows[n];
        }
      }
      assert rows == rows[..n] + [rows[n]];
      assert RepeatsOf(rows) == RepeatsOf(rows[..n]) + {rows[n].repeat};
    }
  }

  lemma SixRepeats(paired: seq<Key>, rows: seq<Key>, c: Config)
    requires forall k | k in rows :: k in paired && k.config == c && k.traced
    requires forall k | k in paired && k.config == c && k.traced :: k in rows
    ensures RepeatsOf(rows) == {1, 2, 3, 4, 5, 6} <==> KeysComplete(paired, c)
  {
    forall r: nat
      ensures r in RepeatsOf(rows) <==> Key(c, true, r) in paired
    {
      if r in RepeatsOf(rows) {
        var k :| k in rows && k.repeat == r;
        assert k == Key(c, true, r);
      }
      if Key(c, true, r) in paired {
        assert Key(c, true, r) in rows;
      }
    }
    if KeysComplete(paired, c) {
      assert RepeatsOf(rows) == {1, 2, 3, 4, 5, 6};
    }
  }

  /** The results are those of the acceptable phases. */
  ghost predicate AreReduced(raw: map<string, Phases.RawPhase>, results: map<string, Phase>) {
    (forall path :: path in results <==> path in raw && Phases.Acceptable(raw[path]))
    && forall path | path in results :: Phases.ReducedTo(raw[path], results[path])
  }

  /** Reduce every phase that has left something. */
  method ReduceAll(raw: map<string, Phases.RawPhase>) returns (results: map<string, Phase>)
    ensures AreReduced(raw, results)
  {
    results := map[];
    var todo := raw.Keys;
    while todo != {}
      invariant todo <= raw.Keys
      invariant forall path :: path in results <==> path in raw && path !in todo && Phases.Acceptable(raw[path])
      invariant forall path | path in results :: Phases.ReducedTo(raw[path], results[path])
      decreases todo
    {
      var path :| path in todo;
      var phase := Phases.AcceptPhase(raw[path]);
      if phase.Success? {
        results := results[path := phase.value];
      }
      todo := todo - {path};
    }
  }

  /** The verdict on every configuration and on the campaign, for any list of predeclared entries:
      there are no issues exactly if every entry is accepted, every group can be paired, every
      configuration is complete, and the campaign itself has ended as it should. */
  method Analyze(entries: seq<Entry>, expected: set<string>, configs: seq<Config>, place: Place,
                 results: map<string, Phase>, ended: bool)
    returns (complete: seq<bool>, tables: map<Key, PairTable>, accepted: bool)
    ensures |complete| == |configs|
    ensures forall k :: k in tables <==> Pairable(Group(Accepted(entries, place, results), k), expected)
    ensures forall k | k in tables :: TableHolds(Group(Accepted(entries, place, results), k), expected, tables[k])
    ensures forall i | 0 <= i < |configs| ::
              complete[i] <==> Complete(Accepted(entries, place, results), expected, configs[i])
    ensures accepted <==> NoIssues(entries, expected, configs, place, results, ended)
  {
    var phases, missing := CollectPhases(entries, place, results);
    var groups := GroupPhases(phases);
    var paired, unpaired;
    paired, tables, unpaired := PairGroups(groups, expected);
    PairedGroups(phases, groups, expected, paired);
    complete := [];
    var incomplete := 0;
    var i := 0;
    while i < |configs|
      invariant 0 <= i <= |configs| && |complete| == i
      invariant forall j | 0 <= j < i :: complete[j] <==> KeysComplete(paired, configs[j])
      invariant 0 <= incomplete && (incomplete == 0 <==> forall j | 0 <= j < i :: complete[j])
    {
      var ok := Summarize(paired, configs[i]);
      if !ok {
        incomplete := incomplete + 1;
      }
      complete := complete + [ok];
      i := i + 1;
    }
    forall j | 0 <= j < |configs|
      ensures complete[j] <==> Complete(phases, expected, configs[j])
    {
      CompleteByKeys(phases, expected, paired, configs[j]);
    }
    GroupsPairable(phases, groups, expected);
    accepted := missing == 0 && unpaired == 0 && incomplete == 0 && ended;
  }

  ghost predicate NoIssues(entries: seq<Entry>, expected: set<string>, configs: seq<Config>, place: Place,
                           results: map<string, Phase>, ended: bool) {
    AllAccepted(entries, place, results) && AllGroupsPair(Accepted(entries, place, results), expected)
    && (forall i | 0 <= i < |configs| :: Complete(Accepted(entries, place, results), expected, configs[i])) && ended
  }

  ghost predicate AllGroupsPair(phases: seq<Phase>, expected: set<string>) {
    forall k: Key | Group(phases, k) != [] :: Pairable(Group(phases, k), expected)
  }

  lemma GroupsPairable(phases: seq<Phase>, groups: map<Key, seq<Phase>>, expected: set<string>)
    requires forall k :: k in groups <==> Group(phases, k) != []
    requires forall k | k in groups :: groups[k] == Group(phases, k)
    ensures (forall k | k in groups :: Pairable(groups[k], expected)) <==> AllGroupsPair(phases, expected)
  {
    if forall k | k in groups :: Pairable(groups[k], expected) {
      forall k: Key | Group(phases, k) != []
        ensures Pairable(Group(phases, k), expected)
      {
        assert k in groups;
      }
    }
  }

  /** The paired keys are those whose group of phases can be paired. */
  ghost predicate PairedExactly(phases: seq<Phase>, expected: set<string>, paired: seq<Key>) {
    forall k :: k in paired <==> Pairable(Group(phases, k), expected)
  }

  lemma PairedGroups(phases: seq<Phase>, groups: map<Key, seq<Phase>>, expected: set<string>, paired: seq<Key>)
    requires forall k :: k in groups <==> Group(phases, k) != []
    requires forall k | k in groups :: groups[k] == Group(phases, k)
    requires forall k :: k in paired <==> k in groups && Pairable(groups[k], expected)
    ensures PairedExactly(phases, expected, paired)
  {
    assert !Pairable([], expected);
  }

  lemma CompleteByKeys(phases: seq<Phase>, expected: set<string>, paired: seq<Key>, c: Config)
    requires PairedExactly(phases, expected, paired)
    ensures Complete(phases, expected, c) <==> KeysComplete(paired, c)
  {
    forall r: nat
      ensures Key(c, true, r) in paired <==> Pairable(Group(phases, Key(c, true, r)), expected)
    {}
  }

  // ----- grouping keyed blocks of entries

  ghost predicate AllAccepted(entries: seq<Entry>, place: Place, results: map<string, Phase>) {
    forall i | 0 <= i < |entries| :: Accept(entries[i], place, results).Some?
  }

  lemma {:induction false} AcceptedAppend(a: seq<Entry>, b: seq<Entry>, place: Place, results: map<string, Phase>)
    ensures Accepted(a + b, place, results) == Accepted(a, place, results) + Accepted(b, place, results)
    decreases |b|
  {
    if b == [] {
      assert a + b == a;
    } else {
      var n := |b| - 1;
      AcceptedAppend(a, b[..n], place, results);
      assert (a + b)[..|a + b| - 1] == a + b[..n];
    }
  }

  lemma {:induction false} GroupAppend(a: seq<Phase>, b: seq<Phase>, key: Key)
    ensures Group(a + b, key) == Group(a, key) + Group(b, key)
    decreases |b|
  {
    if b == [] {
      assert a + b == a;
    } else {
      var n := |b| - 1;
      GroupAppend(a, b[..n], key);
      assert (a + b)[..|a + b| - 1] == a + b[..n];
    }
  }

  /** The size tells whether all entries were accepted; if so, the phases are those of the entries. */
  lemma {:induction false} AcceptedSize(entries: seq<Entry>, place: Place, results: map<string, Phase>)
    ensures |Accepted(entries, place, results)| <= |entries|
    ensures |Accepted(entries, place, results)| == |entries| <==> AllAccepted(entries, place, results)
    ensures AllAccepted(entries, place, results) ==>
              forall i | 0 <= i < |entries| ::
                Accept(entries[i], place, results) == Some(Accepted(entries, place, results)[i])
    ensures forall p | p in Accepted(entries, place, results) :: p.entry in entries && p.place == place
  {
    if entries != [] {
      AcceptedSize(entries[..|entries| - 1], place, results);
    }
  }

  /** Phases of one key form a group of that key and of no other. */
  lemma {:induction false} GroupOfOneKey(phases: seq<Phase>, own: Key, key: Key)
    requires forall p | p in phases :: KeyOf(p) == own
    ensures Group(phases, key) == if key == own then phases else []
  {
    if phases != [] {
      var n := |phases| - 1;
      GroupOfOneKey(phases[..n], own, key);
      assert phases == phases[..n] + [phases[n]];
    }
  }

  function EntryKey(e: Entry): Key {
    Key(e.config, e.traced, e.repeat)
  }

  ghost predicate HasKey(entries: seq<Entry>, key: Key) {
    forall e | e in entries :: EntryKey(e) == key
  }

  lemma KeyedGroup(entries: seq<Entry>, own: Key, place: Place, results: map<string, Phase>, key: Key)
    requires HasKey(entries, own)
    ensures Group(Accepted(entries, place, results), key)
            == if key == own then Accepted(entries, place, results) else []
  {
    var phases := Accepted(entries, place, results);
    AcceptedSize(entries, place, results);
    forall p | p in phases
      ensures KeyOf(p) == own
    {
      assert EntryKey(p.entry) == own;
    }
    GroupOfOneKey(phases, own, key);
  }

  function Join(blocks: seq<seq<Entry>>): seq<Entry> {
    if blocks == [] then [] else Join(blocks[..|blocks| - 1]) + blocks[|blocks| - 1]
  }

  /** Each block has the key of its position. */
  ghost predicate Keyed(blocks: seq<seq<Entry>>, keys: seq<Key>) {
    |blocks| == |keys| && forall b | 0 <= b < |blocks| :: HasKey(blocks[b], keys[b])
  }

  lemma GroupOfMore(blocks: seq<seq<Entry>>, keys: seq<Key>, place: Place, results: map<string, Phase>, key: Key)
    requires Keyed(blocks, keys) && blocks != []
    ensures var n := |blocks| - 1;
            Group(Accepted(Join(blocks), place, results), key) ==
            Group(Accepted(Join(blocks[..n]), place, results), key)
            + (if key == keys[n] then Accepted(blocks[n], place, results) else [])
  {
    var n := |blocks| - 1;
    AcceptedAppend(Join(blocks[..n]), blocks[n], place, results);
    GroupAppend(Accepted(Join(blocks[..n]), place, results), Accepted(blocks[n], place, results), key);
    KeyedGroup(blocks[n], keys[n], place, results, key);
  }

  lemma {:induction false} NoSuchGroup(blocks: seq<seq<Entry>>, keys: seq<Key>, place: Place,
                                       results: map<string, Phase>, key: Key)
    requires Keyed(blocks, keys) && key !in keys
    ensures Group(Accepted(Join(blocks), place, results), key) == []
  {
    if blocks != [] {
      var n := |blocks| - 1;
      NoSuchGroup(blocks[..n], keys[..n], place, results, key);
      GroupOfMore(blocks, keys, place, results, key);
    }
  }

  /** Grouping the accepted phases gives back the accepted phases of each block. */
  lemma {:induction false} GroupIsBlock(blocks: seq<seq<Entry>>, keys: seq<Key>, place: Place,
                                        results: map<string, Phase>, b: nat)
    requires Keyed(blocks, keys) && b < |keys| && KeyOnlyAt(keys, b)
    ensures Group(Accepted(Join(blocks), place, results), keys[b]) == Accepted(blocks[b], place, results)
  {
    var n := |blocks| - 1;
    GroupOfMore(blocks, keys, place, results, keys[b]);
    var init, key := blocks[..n], keys[b];
    KeysOfInit(keys, b);
    if b < n {
      GroupIsBlock(init, keys[..n], place, results, b);
    } else {
      NoSuchGroup(init, keys[..n], place, results, key);
    }
  }

  ghost predicate KeyOnlyAt(keys: seq<Key>, b: nat)
    requires b < |keys|
  {
    forall a | 0 <= a < |keys| && a != b :: keys[a] != keys[b]
  }

  lemma KeysOfInit(keys: seq<Key>, b: nat)
    requires b < |keys| && KeyOnlyAt(keys, b)
    ensures var n := |keys| - 1;
            if b < n then keys[..n][b] == keys[b] && keys[n] != keys[b] && KeyOnlyAt(keys[..n], b)
            else keys[n] == keys[b] && keys[b] !in keys[..n]
  {}

  // ----- a block can be paired exactly when all of its phases are accepted

  lemma {:induction false} ConditionsSplit(phases: seq<Phase>)
    ensures |WithCondition(phases, Concurrent)| + |WithCondition(phases, Isolated)| == |phases|
  {
    if phases != [] {
      ConditionsSplit(phases[..|phases| - 1]);
    }
  }

  ghost predicate AllOf(phases: seq<Phase>, c: Condition) {
    forall i | 0 <= i < |phases| :: phases[i].entry.condition == c
  }

  lemma {:induction false} OneCondition(phases: seq<Phase>, own: Condition, c: Condition)
    requires AllOf(phases, own)
    ensures WithCondition(phases, c) == if c == own then phases else []
  {
    if phases != [] {
      var n := |phases| - 1;
      OneCondition(phases[..n], own, c);
      assert phases == phases[..n] + [phases[n]];
    }
  }

  lemma {:induction false} ConditionAppend(a: seq<Phase>, b: seq<Phase>, c: Condition)
    ensures WithCondition(a + b, c) == WithCondition(a, c) + WithCondition(b, c)
    decreases |b|
  {
    if b == [] {
      assert a + b == a;
    } else {
      var init, last := b[..|b| - 1], b[|b| - 1];
      ConditionAppend(a, init, c);
      ConditionOneMore(init, last, c);
      ConditionOneMore(a + init, last, c);
      SplitLast(a, b);
      Regroup(WithCondition(a, c), WithCondition(init, c), WithCondition([last], c));
    }
  }

  lemma SplitLast(a: seq<Phase>, b: seq<Phase>)
    requires b != []
    ensures b == b[..|b| - 1] + [b[|b| - 1]] && a + b == (a + b[..|b| - 1]) + [b[|b| - 1]]
  {}

  lemma Regroup(a: seq<Phase>, b: seq<Phase>, c: seq<Phase>)
    ensures (a + b) + c == a + (b + c)
  {}

  lemma ConditionOneMore(phases: seq<Phase>, p: Phase, c: Condition)
    ensures WithCondition(phases + [p], c) == WithCondition(phases, c) + WithCondition([p], c)
  {
    assert (phases + [p])[..|phases|] == phases;
    assert [p][..0] == [];
  }

  /** With one concurrent phase at position c, the isolated ones are all the others. */
  lemma SplitConditions(phases: seq<Phase>, c: nat)
    requires c < |phases|
    requires forall k | 0 <= k < |phases| :: phases[k].entry.condition == if k == c then Concurrent else Isolated
    ensures WithCondition(phases, Concurrent) == [phases[c]]
    ensures WithCondition(phases, Isolated) == phases[..c] + phases[c + 1..]
  {
    var before, after := CutAt(phases, c);
    SplitOne(before, [phases[c]], after, Concurrent);
    SplitOne(before, [phases[c]], after, Isolated);
  }

  lemma CutAt(phases: seq<Phase>, c: nat) returns (before: seq<Phase>, after: seq<Phase>)
    requires c < |phases|
    requires forall k | 0 <= k < |phases| :: phases[k].entry.condition == if k == c then Concurrent else Isolated
    ensures phases == before + ([phases[c]] + after) && before + after == phases[..c] + phases[c + 1..]
    ensures AllOf(before, Isolated) && AllOf([phases[c]], Concurrent) && AllOf(after, Isolated)
  {
    before, after := phases[..c], phases[c + 1..];
  }

  lemma SplitOne(a: seq<Phase>, b: seq<Phase>, d: seq<Phase>, c: Condition)
    requires AllOf(a, Isolated) && AllOf(b, Concurrent) && AllOf(d, Isolated)
    ensures WithCondition(a + (b + d), c) == if c == Concurrent then b else a + d
  {
    OneCondition(a, Isolated, c);
    OneCondition(b, Concurrent, c);
    OneCondition(d, Isolated, c);
    var r := WithCondition(a, c) + (WithCondition(b, c) + WithCondition(d, c));
    assert r == if c == Concurrent then b else a + d by {
      if c == Concurrent {
        assert r == b;
      } else {
        assert r == a + d;
      }
    }
    ConditionAppend(b, d, c);
    ConditionAppend(a, b + d, c);
  }

  ghost predicate DistinctBdfs(devices: seq<Device>) {
    forall i, j | 0 <= i < j < |devices| :: devices[i].bdf != devices[j].bdf
  }

  function ExpectedBdfs(devices: seq<Device>): set<string> {
    set d | d in devices :: d.bdf
  }

  lemma {:induction false} ExpectedSize(devices: seq<Device>)
    requires DistinctBdfs(devices)
    ensures |ExpectedBdfs(devices)| == |devices|
  {
    if devices != [] {
      var n := |devices| - 1;
      ExpectedSize(devices[..n]);
      assert devices == devices[..n] + [devices[n]];
      assert devices[n].bdf !in ExpectedBdfs(devices[..n]);
      assert ExpectedBdfs(devices) == ExpectedBdfs(devices[..n]) + {devices[n].bdf};
    }
  }

  lemma RotatedDevices(devices: seq<Device>, k: nat)
    requires k <= |devices| && DistinctBdfs(devices)
    ensures DistinctBdfs(Rotate(devices, k)) && ExpectedBdfs(Rotate(devices, k)) == ExpectedBdfs(devices)
  {
    var r := Rotate(devices, k);
    assert devices == devices[..k] + devices[k..];
    forall d
      ensures d in r <==> d in devices
    {
      assert d in devices <==> d in devices[..k] || d in devices[k..];
    }
  }

  /** A block of entries: every device alone, in some order, and all devices together. */
  ghost predicate BlockShape(block: seq<Entry>, devices: seq<Device>, ordered: seq<Device>, c: nat, key: Key) {
    |block| == |devices| + 1 == |ordered| + 1 && c <= |devices|
    && (forall k | 0 <= k < |block| ::
          EntryKey(block[k]) == key && block[k].condition == (if k == c then Concurrent else Isolated))
    && block[c].devices == devices
    && forall i | 0 <= i < |ordered| :: block[if i < c then i else i + 1].devices == [ordered[i]]
  }

  lemma BlockPairable(block: seq<Entry>, devices: seq<Device>, ordered: seq<Device>, c: nat, key: Key,
                      place: Place, results: map<string, Phase>)
    requires BlockShape(block, devices, ordered, c, key) && devices != []
    requires DistinctBdfs(devices) && DistinctBdfs(ordered) && ExpectedBdfs(ordered) == ExpectedBdfs(devices)
    requires forall path | path in results :: Phases.WellReduced(results[path])
    ensures Pairable(Accepted(block, place, results), ExpectedBdfs(devices)) <==> AllAccepted(block, place, results)
  {
    var phases := Accepted(block, place, results);
    AcceptedSize(block, place, results);
    ExpectedSize(devices);
    ConditionsSplit(phases);
    if AllAccepted(block, place, results) {
      forall k | 0 <= k < |phases|
        ensures AcceptedPhase(phases[k], block[k], place)
      {
        assert Accept(block[k], place, results) == Some(phases[k]);
      }
      AcceptedBlockPairable(block, phases, devices, ordered, c, key, place);
    }
  }

  ghost predicate AcceptedPhase(p: Phase, e: Entry, place: Place) {
    p.entry == e && p.place == place && Phases.WellReduced(p)
  }

  lemma AcceptedBlockPairable(block: seq<Entry>, phases: seq<Phase>, devices: seq<Device>, ordered: seq<Device>, c: nat,
                              key: Key, place: Place)
    requires BlockShape(block, devices, ordered, c, key) && |phases| == |block| && devices != []
    requires DistinctBdfs(devices) && DistinctBdfs(ordered) && ExpectedBdfs(ordered) == ExpectedBdfs(devices)
    requires forall k | 0 <= k < |phases| :: AcceptedPhase(phases[k], block[k], place)
    ensures Pairable(phases, ExpectedBdfs(devices))
  {
    SplitConditions(phases, c);
    var isolated := phases[..c] + phases[c + 1..];
    forall i | 0 <= i < |ordered|
      ensures isolated[i].place == place && Phases.WellReduced(isolated[i]) && KeyOf(isolated[i]) == key
      ensures isolated[i].entry.devices == [ordered[i]]
    {
      var k := if i < c then i else i + 1;
      assert isolated[i] == phases[k] && AcceptedPhase(phases[k], block[k], place) && EntryKey(block[k]) == key;
    }
    assert AcceptedPhase(phases[c], block[c], place) && EntryKey(block[c]) == key;
    FullBlockPairable(phases, devices, ordered, isolated, phases[c], key, place);
  }

  lemma FullBlockPairable(phases: seq<Phase>, devices: seq<Device>, ordered: seq<Device>,
                          isolated: seq<Phase>, together: Phase, key: Key, place: Place)
    requires DistinctBdfs(devices) && DistinctBdfs(ordered) && ExpectedBdfs(ordered) == ExpectedBdfs(devices)
    requires WithCondition(phases, Concurrent) == [together] && WithCondition(phases, Isolated) == isolated
    requires together.entry.devices == devices && together.place == place && Phases.WellReduced(together)
             && KeyOf(together) == key
    requires |isolated| == |ordered| == |devices| && devices != []
    requires forall i | 0 <= i < |ordered| ::
               isolated[i].place == place && Phases.WellReduced(isolated[i]) && KeyOf(isolated[i]) == key
               && isolated[i].entry.devices == [ordered[i]]
    ensures Pairable(phases, ExpectedBdfs(devices))
  {
    ExpectedSize(devices);
    assert forall i | 0 <= i < |isolated| :: |isolated[i].rows| == 1 && isolated[i].rows[0].bdf == ordered[i].bdf;
    assert Baselines(isolated, together);
    RowsOfDevices(together, devices);
    BaselinesOfDevices(isolated, ordered);
  }

  lemma RowsOfDevices(p: Phase, devices: seq<Device>)
    requires Phases.WellReduced(p) && p.entry.devices == devices
    ensures Bdfs(p.rows) == ExpectedBdfs(devices)
  {
    forall x | x in Bdfs(p.rows)
      ensures x in ExpectedBdfs(devices)
    {
      var i :| 0 <= i < |p.rows| && p.rows[i].bdf == x;
      assert devices[i] in devices;
    }
    forall x | x in ExpectedBdfs(devices)
      ensures x in Bdfs(p.rows)
    {
      var i :| 0 <= i < |devices| && devices[i].bdf == x;
      assert p.rows[i] in p.rows;
    }
  }

  lemma BaselinesOfDevices(isolated: seq<Phase>, ordered: seq<Device>)
    requires |isolated| == |ordered|
    requires forall i | 0 <= i < |isolated| :: |isolated[i].rows| == 1 && isolated[i].rows[0].bdf == ordered[i].bdf
    ensures BaselineBdfs(isolated) == ExpectedBdfs(ordered)
  {
    forall x | x in BaselineBdfs(isolated)
      ensures x in ExpectedBdfs(ordered)
    {
      var i :| 0 <= i < |isolated| && |isolated[i].rows| == 1 && isolated[i].rows[0].bdf == x;
      assert ordered[i] in ordered;
    }
    forall x | x in ExpectedBdfs(ordered)
      ensures x in BaselineBdfs(isolated)
    {
      var i :| 0 <= i < |ordered| && ordered[i].bdf == x;
      assert isolated[i].rows[0].bdf == x;
    }
  }

  // ----- agreement with the planner

  function BlockKey(configs: seq<Config>, b: nat): Key
    requires |configs| == 7
  {
    Key(configs[ConfigIndex(b)], RepeatOf(b) <= TRACED_REPEATS, RepeatOf(b))
  }

  function BlockKeys(configs: seq<Config>, blocks: nat): (r: seq<Key>)
    requires |configs| == 7
    ensures |r| == blocks && forall b | 0 <= b < blocks :: r[b] == BlockKey(configs, b)
  {
    seq(blocks, b requires 0 <= b => BlockKey(configs, b))
  }

  function PlanBlocks(devices: seq<Device>, configs: seq<Config>, blocks: nat): (r: seq<seq<Entry>>)
    requires 0 < |devices| && |configs| == 7 && blocks <= 49
    ensures |r| == blocks && forall b | 0 <= b < blocks :: r[b] == Block(devices, configs, b)
  {
    seq(blocks, b requires 0 <= b < blocks => Block(devices, configs, b))
  }

  lemma {:induction false} PlanIsJoin(devices: seq<Device>, configs: seq<Config>, blocks: nat)
    requires 0 < |devices| && |configs| == 7 && blocks <= 49
    ensures Plan(devices, configs, blocks) == Join(PlanBlocks(devices, configs, blocks))
  {
    if blocks != 0 {
      PlanIsJoin(devices, configs, blocks - 1);
      assert PlanBlocks(devices, configs, blocks)[..blocks - 1] == PlanBlocks(devices, configs, blocks - 1);
    }
  }

  /** Entry k of a block, as the block's shape has it. */
  ghost predicate EntryShape(e: Entry, devices: seq<Device>, ordered: seq<Device>, c: nat, key: Key, k: nat)
    requires |ordered| == |devices| && k <= |devices| && c <= |devices|
  {
    EntryKey(e) == key && e.condition == (if k == c then Concurrent else Isolated)
    && e.devices == if k == c then devices else [ordered[if k < c then k else k - 1]]
  }

  lemma ShapeOfEntries(block: seq<Entry>, devices: seq<Device>, ordered: seq<Device>, c: nat, key: Key)
    requires |ordered| == |devices| && |block| == |devices| + 1 && c <= |devices|
    requires forall k | 0 <= k <= |devices| :: EntryShape(block[k], devices, ordered, c, key, k)
    ensures BlockShape(block, devices, ordered, c, key)
  {
    forall i | 0 <= i < |ordered|
      ensures block[if i < c then i else i + 1].devices == [ordered[i]]
    {
      var k := if i < c then i else i + 1;
      assert EntryShape(block[k], devices, ordered, c, key, k);
    }
    assert EntryShape(block[c], devices, ordered, c, key, c);
  }

  lemma ShapeOfBlock(devices: seq<Device>, configs: seq<Config>, b: nat)
    requires 0 < |devices| && |configs| == 7 && b < 49
    ensures BlockShape(Block(devices, configs, b), devices, Rotate(devices, Shift(devices, b)),
                       ConcurrentAt(devices, b), BlockKey(configs, b))
  {
    var block := Block(devices, configs, b);
    var c := ConcurrentAt(devices, b);
    var ordered := Rotate(devices, Shift(devices, b));
    forall k | 0 <= k <= |devices|
      ensures EntryShape(block[k], devices, ordered, c, BlockKey(configs, b), k)
    {
      ShapeOfEntry(devices, configs, b, k);
    }
    ShapeOfEntries(block, devices, ordered, c, BlockKey(configs, b));
  }

  lemma ShapeOfEntry(devices: seq<Device>, configs: seq<Config>, b: nat, k: nat)
    requires 0 < |devices| && |configs| == 7 && b < 49 && k <= |devices|
    ensures EntryShape(BlockEntry(devices, configs, b, k), devices, Rotate(devices, Shift(devices, b)),
                       ConcurrentAt(devices, b), BlockKey(configs, b), k)
  {}

  lemma PlanIsKeyed(devices: seq<Device>, configs: seq<Config>)
    requires 0 < |devices| && |configs| == 7
    ensures Keyed(PlanBlocks(devices, configs, 49), BlockKeys(configs, 49))
  {
    forall b: nat | b < 49
      ensures HasKey(Block(devices, configs, b), BlockKey(configs, b))
    {
      ShapeOfBlock(devices, configs, b);
    }
  }

  lemma KeysDiffer(configs: seq<Config>, a: nat, b: nat)
    requires GoodConfigs(configs) && a < 49 && b < 49 && a != b
    ensures BlockKey(configs, a) != BlockKey(configs, b)
  {
    if BlockKey(configs, a) == BlockKey(configs, b) {
      SameConfig(configs, ConfigIndex(a), ConfigIndex(b));
      SameBlock(a, b);
    }
  }

  /** The block of configuration i in repeat r (for 1 <= r <= 7). */
  function BlockFor(i: nat, r: nat): (b: nat)
    ensures b < 49
  {
    if 1 <= r <= 7 then (r - 1) * 7 + (i + 7 - (r - 1)) % 7 else 0
  }

  lemma BlockOfRepeat(i: nat, r: nat)
    requires i < 7 && 1 <= r <= 7
    ensures RepeatOf(BlockFor(i, r)) == r && ConfigIndex(BlockFor(i, r)) == i
  {}

  /** A traced repeat of a configuration is paired exactly when its block is fully accepted. */
  lemma RepeatPaired(devices: seq<Device>, configs: seq<Config>, i: nat, r: nat, place: Place,
                     results: map<string, Phase>)
    requires 0 < |devices| && DistinctBdfs(devices) && GoodConfigs(configs) && i < 7
    requires forall path | path in results :: Phases.WellReduced(results[path])
    ensures Pairable(Group(Accepted(Plan(devices, configs, 49), place, results), Key(configs[i], true, r)),
                     ExpectedBdfs(devices)) <==>
            1 <= r <= TRACED_REPEATS && AllAccepted(Block(devices, configs, BlockFor(i, r)), place, results)
  {
    if 1 <= r <= TRACED_REPEATS {
      BlockOfRepeat(i, r);
      BlockPaired(devices, configs, place, results, BlockFor(i, r));
    } else {
      PlanIsJoin(devices, configs, 49);
      PlanIsKeyed(devices, configs);
      NoSuchKey(configs, i, r);
      NoSuchGroup(PlanBlocks(devices, configs, 49), BlockKeys(configs, 49), place, results, Key(configs[i], true, r));
    }
  }

  lemma NoSuchKey(configs: seq<Config>, i: nat, r: nat)
    requires |configs| == 7 && i < 7 && !(1 <= r <= TRACED_REPEATS)
    ensures Key(configs[i], true, r) !in BlockKeys(configs, 49)
  {}

  /** The traced phases planned for a configuration. */
  ghost predicate AllTracedAccepted(devices: seq<Device>, configs: seq<Config>, c: Config, place: Place,
                                    results: map<string, Phase>)
    requires 0 < |devices| && |configs| == 7
  {
    forall e | e in Plan(devices, configs, 49) && e.config == c && e.traced :: Accept(e, place, results).Some?
  }

  /** Planner and analyzer agree: the analyzer calls a configuration complete exactly when all the
      traced phases that the planner has laid out for it are accepted. */
  lemma CompleteExactlyWhenAccepted(devices: seq<Device>, configs: seq<Config>, i: nat, place: Place,
                                    results: map<string, Phase>)
    requires 0 < |devices| && DistinctBdfs(devices) && GoodConfigs(configs) && i < 7
    requires forall path | path in results :: Phases.WellReduced(results[path])
    ensures Complete(Accepted(Plan(devices, configs, 49), place, results), ExpectedBdfs(devices), configs[i])
            <==> AllTracedAccepted(devices, configs, configs[i], place, results)
  {
    forall r: nat
      ensures Pairable(Group(Accepted(Plan(devices, configs, 49), place, results), Key(configs[i], true, r)),
                       ExpectedBdfs(devices)) <==>
              1 <= r <= TRACED_REPEATS && AllAccepted(Block(devices, configs, BlockFor(i, r)), place, results)
    {
      RepeatPaired(devices, configs, i, r, place, results);
    }
    TracedBlocks(devices, configs, i, place, results);
  }

  /** The traced phases of a configuration are those of its six traced blocks. */
  lemma TracedBlocks(devices: seq<Device>, configs: seq<Config>, i: nat, place: Place, results: map<string, Phase>)
    requires 0 < |devices| && GoodConfigs(configs) && i < 7
    ensures AllTracedAccepted(devices, configs, configs[i], place, results) <==>
            forall r: nat | 1 <= r <= TRACED_REPEATS ::
              AllAccepted(Block(devices, configs, BlockFor(i, r)), place, results)
  {
    if AllTracedAccepted(devices, configs, configs[i], place, results) {
      forall r: nat | 1 <= r <= TRACED_REPEATS
        ensures AllAccepted(Block(devices, configs, BlockFor(i, r)), place, results)
      {
        BlockOfRepeat(i, r);
        forall k | 0 <= k <= |devices|
          ensures Accept(Block(devices, configs, BlockFor(i, r))[k], place, results).Some?
        {
          BlockInPlan(devices, configs, 49, BlockFor(i, r), k);
        }
      }
    }
    if forall r: nat | 1 <= r <= TRACED_REPEATS ::
         AllAccepted(Block(devices, configs, BlockFor(i, r)), place, results) {
      forall e | e in Plan(devices, configs, 49) && e.config == configs[i] && e.traced
        ensures Accept(e, place, results).Some?
      {
        var b, k := EntryOfPlan(devices, configs, e);
        SameConfig(configs, ConfigIndex(b), i);
        BlockOfRepeat(i, e.repeat);
        SameBlock(b, BlockFor(i, e.repeat));
        assert AllAccepted(Block(devices, configs, BlockFor(i, e.repeat)), place, results);
        assert Block(devices, configs, b)[k] == e;
      }
    }
  }

  lemma {:induction false} BlockInPlan(devices: seq<Device>, configs: seq<Config>, blocks: nat, b: nat, k: nat)
    requires 0 < |devices| && |configs| == 7 && b < blocks <= 49 && k <= |devices|
    ensures Block(devices, configs, b)[k] in Plan(devices, configs, blocks)
  {
    if b < blocks - 1 {
      BlockInPlan(devices, configs, blocks - 1, b, k);
    } else {
      assert Block(devices, configs, b)[k] in Block(devices, configs, blocks - 1);
    }
  }

  lemma EntryOfPlan(devices: seq<Device>, configs: seq<Config>, e: Entry) returns (b: nat, k: nat)
    requires 0 < |devices| && |configs| == 7 && e in Plan(devices, configs, 49)
    ensures b < 49 && k <= |devices| && e == BlockEntry(devices, configs, b, k)
    ensures e.config == configs[ConfigIndex(b)] && e.repeat == RepeatOf(b) && (e.traced <==> e.repeat <= TRACED_REPEATS)
  {
    var p :| 0 <= p < |Plan(devices, configs, 49)| && Plan(devices, configs, 49)[p] == e;
    PlanAt(devices, configs, 49, p);
    b, k := p / (|devices| + 1), p % (|devices| + 1);
  }

  /** A campaign whose phases are all accepted is complete in each of its configurations. */
  lemma FullCampaignIsComplete(devices: seq<Device>, place: Place, results: map<string, Phase>)
    requires 0 < |devices| && DistinctBdfs(devices)
    requires forall path | path in results :: Phases.WellReduced(results[path])
    requires AllAccepted(Plan(devices, CONFIGS, 49), place, results)
    ensures forall i | 0 <= i < |CONFIGS| ::
              Complete(Accepted(Plan(devices, CONFIGS, 49), place, results), ExpectedBdfs(devices), CONFIGS[i])
  {
    CampaignConfigsAreGood();
    forall i | 0 <= i < |CONFIGS|
      ensures Complete(Accepted(Plan(devices, CONFIGS, 49), place, results), ExpectedBdfs(devices), CONFIGS[i])
    {
      CompleteExactlyWhenAccepted(devices, CONFIGS, i, place, results);
    }
  }

  /** The key of a group of accepted phases is the key of a block. */
  lemma KeyOfGroup(devices: seq<Device>, configs: seq<Config>, place: Place, results: map<string, Phase>, key: Key)
    returns (b: nat)
    requires 0 < |devices| && GoodConfigs(configs)
    requires Group(Accepted(Plan(devices, configs, 49), place, results), key) != []
    ensures b < 49 && key == BlockKey(configs, b)
  {
    PlanIsJoin(devices, configs, 49);
    PlanIsKeyed(devices, configs);
    var keys := BlockKeys(configs, 49);
    if key !in keys {
      NoSuchGroup(PlanBlocks(devices, configs, 49), keys, place, results, key);
    }
    b :| 0 <= b < |keys| && keys[b] == key;
  }

  /** If everything planned has been accepted, every group can be paired. */
  lemma AllGroupsPairable(devices: seq<Device>, configs: seq<Config>, place: Place, results: map<string, Phase>)
    requires 0 < |devices| && DistinctBdfs(devices) && GoodConfigs(configs)
    requires forall path | path in results :: Phases.WellReduced(results[path])
    requires AllAccepted(Plan(devices, configs, 49), place, results)
    ensures AllGroupsPair(Accepted(Plan(devices, configs, 49), place, results), ExpectedBdfs(devices))
  {
    forall key: Key | Group(Accepted(Plan(devices, configs, 49), place, results), key) != []
      ensures Pairable(Group(Accepted(Plan(devices, configs, 49), place, results), key), ExpectedBdfs(devices))
    {
      var b := KeyOfGroup(devices, configs, place, results, key);
      BlockAccepted(devices, configs, place, results, b);
      BlockPaired(devices, configs, place, results, b);
    }
  }

  lemma BlockAccepted(devices: seq<Device>, configs: seq<Config>, place: Place, results: map<string, Phase>, b: nat)
    requires 0 < |devices| && GoodConfigs(configs) && b < 49
    requires AllAccepted(Plan(devices, configs, 49), place, results)
    ensures AllAccepted(Block(devices, configs, b), place, results)
  {
    forall k | 0 <= k <= |devices|
      ensures Accept(Block(devices, configs, b)[k], place, results).Some?
    {
      BlockInPlan(devices, configs, 49, b, k);
    }
  }

  /** The group of a block can be paired exactly when all of its phases have been accepted. */
  lemma BlockPaired(devices: seq<Device>, configs: seq<Config>, place: Place, results: map<string, Phase>, b: nat)
    requires 0 < |devices| && DistinctBdfs(devices) && GoodConfigs(configs) && b < 49
    requires forall path | path in results :: Phases.WellReduced(results[path])
    ensures Pairable(Group(Accepted(Plan(devices, configs, 49), place, results), BlockKey(configs, b)),
                     ExpectedBdfs(devices)) <==>
            AllAccepted(Block(devices, configs, b), place, results)
  {
    var blocks, keys := PlanBlocks(devices, configs, 49), BlockKeys(configs, 49);
    PlanIsJoin(devices, configs, 49);
    PlanIsKeyed(devices, configs);
    forall a | 0 <= a < |keys| && a != b
      ensures keys[a] != keys[b]
    {
      KeysDiffer(configs, a, b);
    }
    assert KeyOnlyAt(keys, b);
    GroupIsBlock(blocks, keys, place, results, b);
    var shift := Shift(devices, b);
    RotatedDevices(devices, shift);
    ShapeOfBlock(devices, configs, b);
    BlockPairable(blocks[b], devices, Rotate(devices, shift), ConcurrentAt(devices, b), keys[b], place, results);
  }

  /** The final verdict: a campaign has no issues if and only if all 49*(n+1) planned phases have been
      accepted and the campaign has ended as it should. */
  lemma NoIssuesExactly(devices: seq<Device>, place: Place, results: map<string, Phase>, ended: bool)
    requires 0 < |devices| && DistinctBdfs(devices)
    requires forall path | path in results :: Phases.WellReduced(results[path])
    ensures NoIssues(Plan(devices, CONFIGS, 49), ExpectedBdfs(devices), CONFIGS, place, results, ended)
            <==> AllAccepted(Plan(devices, CONFIGS, 49), place, results) && ended
    ensures |Plan(devices, CONFIGS, 49)| == 49 * (|devices| + 1)
  {
    CampaignConfigsAreGood();
    PlanSize(devices, CONFIGS, 49);
    if AllAccepted(Plan(devices, CONFIGS, 49), place, results) {
      AllGroupsPairable(devices, CONFIGS, place, results);
      FullCampaignIsComplete(devices, place, results);
    }
  }

  /** An entry of the plan has been accepted: its phase is there, acceptable, and the one planned. */
  ghost predicate RawAccepted(e: Entry, place: Place, raw: map<string, Phases.RawPhase>) {
    e.path in raw && Phases.Acceptable(raw[e.path]) && raw[e.path].entry == e && raw[e.path].place == place
  }

  // ----- from the counted kernels to the slowdown

  lemma {:induction false} InGroup(phases: seq<Phase>, key: Key, p: Phase)
    requires p in Group(phases, key)
    ensures p in phases && KeyOf(p) == key
  {
    var n := |phases| - 1;
    if p in Group(phases[..n], key) {
      InGroup(phases[..n], key, p);
    }
  }

  lemma {:induction false} InAccepted(entries: seq<Entry>, place: Place, results: map<string, Phase>, p: Phase)
    returns (e: Entry)
    requires p in Accepted(entries, place, results)
    ensures e in entries && Accept(e, place, results) == Some(p)
  {
    var n := |entries| - 1;
    if p in Accepted(entries[..n], place, results) {
      e := InAccepted(entries[..n], place, results, p);
    } else {
      e := entries[n];
    }
  }

  /** The rates of a pair row come from the kernels counted in two planned phases of the same trial: one
      of all devices together, and one of this device alone. */
  ghost predicate RowFromRaw(entries: seq<Entry>, place: Place, raw: map<string, Phases.RawPhase>, key: Key,
                             row: PairRow) {
    exists e, f, k ::
      e in entries && f in entries && EntryKey(e) == key && EntryKey(f) == key
      && RawAccepted(e, place, raw) && RawAccepted(f, place, raw) && RowOfPhases(e, f, k, raw, row)
  }

  ghost predicate RowOfPhases(e: Entry, f: Entry, k: nat, raw: map<string, Phases.RawPhase>, row: PairRow) {
    e.condition.Concurrent? && f.condition.Isolated? && k < |e.devices| && |f.devices| == 1
    && row.bdf == e.devices[k].bdf == f.devices[0].bdf && e.path in raw && f.path in raw
    && Phases.DeviceRate(raw[e.path], k, row.concurrent) && Phases.DeviceRate(raw[f.path], 0, row.isolated)
    && row.slowdown * row.concurrent == row.isolated
  }

  lemma RowsFromRaw(entries: seq<Entry>, place: Place, raw: map<string, Phases.RawPhase>,
                    results: map<string, Phase>, key: Key, phases: seq<Phase>, t: PairTable, i: nat, row: PairRow)
    requires AreReduced(raw, results) && phases == Group(Accepted(entries, place, results), key)
    requires TableRows(phases, t) && i < |t.rows| && row == t.rows[i]
    ensures RowFromRaw(entries, place, raw, key, row)
  {
    var together, alone := PhasesOfRow(phases, t, i, row);
    RowFromPhases(entries, place, raw, results, key, phases, together, alone, i, row);
  }

  /** Row number i compares device i of the one phase with the only device of the other. */
  ghost predicate RowCompares(together: Phase, alone: Phase, i: nat, row: PairRow) {
    i < |together.rows| && row.bdf == together.rows[i].bdf && row.concurrent == together.rows[i].rate
    && alone.rows == [DeviceRow(row.bdf, row.isolated)] && row.slowdown * row.concurrent == row.isolated
  }

  /** The two phases that a pair row compares. */
  lemma PhasesOfRow(phases: seq<Phase>, t: PairTable, i: nat, row: PairRow) returns (together: Phase, alone: Phase)
    requires TableRows(phases, t) && i < |t.rows| && row == t.rows[i]
    ensures together in WithCondition(phases, Concurrent) && alone in WithCondition(phases, Isolated)
    ensures RowCompares(together, alone, i, row)
  {
    together := WithCondition(phases, Concurrent)[0];
    var isolated := WithCondition(phases, Isolated);
    assert PairRowHolds(row, together.rows[i], isolated);
    var j :| 0 <= j < |isolated| && isolated[j].rows == [DeviceRow(row.bdf, row.isolated)];
    alone := isolated[j];
  }

  lemma RowFromPhases(entries: seq<Entry>, place: Place, raw: map<string, Phases.RawPhase>,
                      results: map<string, Phase>, key: Key, phases: seq<Phase>, together: Phase, alone: Phase,
                      i: nat, row: PairRow)
    requires AreReduced(raw, results) && phases == Group(Accepted(entries, place, results), key)
    requires together in WithCondition(phases, Concurrent) && alone in WithCondition(phases, Isolated)
    requires RowCompares(together, alone, i, row)
    ensures RowFromRaw(entries, place, raw, key, row)
  {
    var e := EntryOfPhase(entries, place, results, key, Concurrent, together);
    var f := EntryOfPhase(entries, place, results, key, Isolated, alone);
    AcceptedRaw(e, place, raw, results);
    AcceptedRaw(f, place, raw, results);
    RowOfReduced(e, f, i, raw, together, alone, row);
  }

  lemma AcceptedRaw(e: Entry, place: Place, raw: map<string, Phases.RawPhase>, results: map<string, Phase>)
    requires AreReduced(raw, results)
    requires Accept(e, place, results).Some?
    ensures RawAccepted(e, place, raw) && Phases.ReducedTo(raw[e.path], Accept(e, place, results).value)
  {}

  lemma RowOfReduced(e: Entry, f: Entry, i: nat, raw: map<string, Phases.RawPhase>, together: Phase, alone: Phase,
                     row: PairRow)
    requires e.condition.Concurrent? && f.condition.Isolated? && together.entry == e && alone.entry == f
    requires e.path in raw && f.path in raw
    requires Phases.ReducedTo(raw[e.path], together) && Phases.ReducedTo(raw[f.path], alone)
    requires RowCompares(together, alone, i, row)
    ensures RowOfPhases(e, f, i, raw, row)
  {
    assert Phases.DeviceRate(raw[e.path], i, together.rows[i].rate);
    assert Phases.DeviceRate(raw[f.path], 0, alone.rows[0].rate);
  }

  lemma EntryOfPhase(entries: seq<Entry>, place: Place, results: map<string, Phase>, key: Key, c: Condition, p: Phase)
    returns (e: Entry)
    requires p in WithCondition(Group(Accepted(entries, place, results), key), c)
    ensures e in entries && Accept(e, place, results) == Some(p) && p.entry == e
    ensures EntryKey(e) == key && e.condition == c
  {
    InCondition(Group(Accepted(entries, place, results), key), c, p);
    InGroup(Accepted(entries, place, results), key, p);
    e := InAccepted(entries, place, results, p);
  }

  /** The slowdown of a device is the ratio of two kernel counts: those alone to those together. */
  lemma SlowdownIsRatio(e: Entry, f: Entry, k: nat, raw: map<string, Phases.RawPhase>, row: PairRow)
    requires RowOfPhases(e, f, k, raw, row)
    ensures row.slowdown * KernelsOf(raw[e.path], k) as real == KernelsOf(raw[f.path], 0) as real
  {
    var n, m := KernelsOf(raw[e.path], k), KernelsOf(raw[f.path], 0);
    assert row.concurrent * 2000000000.0 == (n * 805306368) as real;
    assert row.isolated * 2000000000.0 == (m * 805306368) as real;
    RatioOfCounts(row.slowdown, row.concurrent, row.isolated, n, m);
  }

  /** The kernels counted for device k of a phase. */
  ghost function KernelsOf(p: Phases.RawPhase, k: nat): int
    requires k < |p.entry.devices| && p.entry.devices[k].worker in p.workers
  {
    Phases.CompleteKernels(p.workers[p.entry.devices[k].worker].trace, p.entry.traced, p.t0, p.t1)
  }

  lemma RatioOfCounts(slowdown: real, concurrent: real, isolated: real, n: int, m: int)
    requires concurrent * 2000000000.0 == (n * 805306368) as real && isolated * 2000000000.0 == (m * 805306368) as real
    requires slowdown * concurrent == isolated
    ensures slowdown * n as real == m as real
  {
    var x, y := n as real, m as real;
    assert (n * 805306368) as real == x * 805306368.0 && (m * 805306368) as real == y * 805306368.0;
    var unit := 805306368.0 / 2000000000.0;
    assert concurrent == x * unit && isolated == y * unit;
    Pairing.Regroup(slowdown, x, unit);
    CancelPositive(slowdown * x, y, unit);
    CancelPositive(y, slowdown * x, unit);
  }

  /** The whole campaign, from the planned phases and what they have left to the verdict: accepted
      exactly if every planned phase is there, is the one planned, and is acceptable. */
  method PlanAndAnalyze(devices: seq<Device>, place: Place, raw: map<string, Phases.RawPhase>, ended: bool)
    returns (complete: seq<bool>, tables: map<Key, PairTable>, accepted: bool)
    requires 0 < |devices| && DistinctBdfs(devices)
    ensures |complete| == |CONFIGS|
    ensures accepted <==> (forall e | e in Plan(devices, CONFIGS, 49) :: RawAccepted(e, place, raw)) && ended
    ensures accepted ==> forall i | 0 <= i < |CONFIGS| :: complete[i]
    ensures accepted ==> forall b: nat | b < 49 :: BlockKey(CONFIGS, b) in tables
    ensures forall key | key in tables :: forall i | 0 <= i < |tables[key].rows| ::
              RowFromRaw(Plan(devices, CONFIGS, 49), place, raw, key, tables[key].rows[i])
  {
    CampaignConfigsAreGood();
    var entries := MakeSchedule(devices, CONFIGS);
    var results := ReduceAll(raw);
    complete, tables, accepted := Analyze(entries, ExpectedBdfs(devices), CONFIGS, place, results, ended);
    NoIssuesExactly(devices, place, results, ended);
    RawIsAccepted(entries, place, raw, results);
    forall b: nat | b < 49 && accepted
      ensures BlockKey(CONFIGS, b) in tables
    {
      BlockAccepted(devices, CONFIGS, place, results, b);
      BlockPaired(devices, CONFIGS, place, results, b);
    }
    forall key, i | key in tables && 0 <= i < |tables[key].rows|
      ensures RowFromRaw(entries, place, raw, key, tables[key].rows[i])
    {
      RowsFromRaw(entries, place, raw, results, key, Group(Accepted(entries, place, results), key),
                  tables[key], i, tables[key].rows[i]);
    }
  }

  lemma RawIsAccepted(entries: seq<Entry>, place: Place, raw: map<string, Phases.RawPhase>, results: map<string, Phase>)
    requires AreReduced(raw, results)
    ensures AllAccepted(entries, place, results) <==> forall e | e in entries :: RawAccepted(e, place, raw)
  {
    forall e
      ensures Accept(e, place, results).Some? <==> RawAccepted(e, place, raw)
    {}
    if forall e | e in entries :: RawAccepted(e, place, raw) {
      forall i | 0 <= i < |entries|
        ensures Accept(entries[i], place, results).Some?
      {
        assert RawAccepted(entries[i], place, raw);
      }
    }
  }
}
