/**
 * Building a project snapshot from what the Vercel CLI reports
 * (src/lib/vercel-cli/snapshot.ts): the three dotenv maps `vercel env pull`
 * writes, merged with the rows of `vercel env ls`, which say which
 * environments share one stored variable.
 */
module CliSnapshot {
  import opened Wrappers
  import opened Strings
  import opened Sorting
  import opened EnvTypes
  import opened ReservedKeys
  import opened EnvList

  /** `BUILT_IN_ENVIRONMENT_COLUMNS`. */
  const BuiltInColumns: seq<EnvironmentColumn> := [
    EnvironmentColumn("production", "Production", BuiltInKind, None),
    EnvironmentColumn("preview", "Preview", BuiltInKind, None),
    EnvironmentColumn("development", "Development", BuiltInKind, None)
  ]

  /** `PulledEnvMapsByEnvironment`: one dotenv map per built-in environment. */
  datatype PulledMaps = PulledMaps(production: EnvMap, preview: EnvMap, development: EnvMap)

  function MapFor(maps: PulledMaps, e: BuiltIn): EnvMap
  {
    match e
    case Production => maps.production
    case Preview => maps.preview
    case Development => maps.development
  }

  /** `editableMaps`: each map with the reserved runtime keys filtered out. */
  function EditableMaps(maps: PulledMaps): PulledMaps
  {
    PulledMaps(Editable(maps.production), Editable(maps.preview), Editable(maps.development))
  }

  /** `Object.keys(editableMaps)`: the literal lists development first. */
  const FallbackOrder: seq<BuiltIn> := [Development, Preview, Production]

  /** `.slice(0, 12)`. */
  function Slice12(s: string): (r: string)
    ensures |r| <= 12 && r <= s
    ensures |s| <= 12 ==> r == s
  {
    if |s| <= 12 then s else s[..12]
  }

  /** The text `envRecordId` hashes. */
  function DigestInput(key: string, target: seq<BuiltIn>, ordinal: nat): string
  {
    Join(Names(target), ",") + "::" + key + "::" + NatToString(ordinal)
  }

  function IdPrefix(target: seq<BuiltIn>): string
  {
    "cli:" + Join(Names(target), "+") + ":"
  }

  /**
   * `envRecordId`; `digest` stands for the lower-case hex SHA-1 of its
   * argument, of which the first twelve characters are kept.
   */
  function EnvRecordId(key: string, target: seq<BuiltIn>, ordinal: nat, digest: string -> string): (id: string)
    ensures StartsWith(id, IdPrefix(target)) && |id| <= |IdPrefix(target)| + 12
    ensures id[|IdPrefix(target)|..] <= digest(DigestInput(key, target, ordinal))
  {
    var d := Slice12(digest(DigestInput(key, target, ordinal)));
    var id := IdPrefix(target) + d;
    assert id[..|IdPrefix(target)|] == IdPrefix(target);
    assert id[|IdPrefix(target)|..] == d;
    id
  }

  /** The topology rows are ordered by key, then by their comma-joined target. */
  function RowKey(row: TopologyRow): seq<SortAtom>
  {
    [StrAtom(row.key), StrAtom(Join(Names(row.target), ","))]
  }

  /** The records are ordered by key, then by the environment order of their first target. */
  function RecordKey(r: RawRecord): seq<SortAtom>
  {
    [StrAtom(r.key), IntAtom(if r.target == [] then 2 else EnvOrder(r.target[0]))]
  }

  /**
   * The index of the first environment of `target` whose editable map has
   * `key`; `|target|` when none does (`find` returning `undefined`).
   */
  function FirstHolder(target: seq<BuiltIn>, ed: PulledMaps, key: string): (k: nat)
    ensures k <= |target|
    ensures forall j :: 0 <= j < k ==> Lookup(MapFor(ed, target[j]), key).None?
    ensures k < |target| ==> Lookup(MapFor(ed, target[k]), key).Some?
  {
    if target == [] then 0
    else if Lookup(MapFor(ed, target[0]), key).Some? then 0
    else 1 + FirstHolder(target[1..], ed, key)
  }

  /** Every record this module builds: plain, with no custom environment, comment, branch or read-only reason. */
  function PlainRecord(id: string, key: string, value: string, target: seq<BuiltIn>): RawRecord
  {
    RawRecord(id, key, value, Plain, target, [], None, None, false, None)
  }

  /** The `coveredPairs` entry of one environment and key. */
  function CoveredKey(e: BuiltIn, key: string): string
  {
    BuiltInName(e) + "::" + key
  }

  function CoveredKeys(target: seq<BuiltIn>, key: string): set<string>
  {
    set e | e in target :: CoveredKey(e, key)
  }

  /** The `keyTargetCount` key of a topology row. */
  function IdKey(key: string, target: seq<BuiltIn>): string
  {
    key + "::" + Join(Names(target), ",")
  }

  /**
   * What the topology pass has built so far. `seeds` is not in the source:
   * it records the (key, target, ordinal) each record's id was made from.
   */
  datatype TopoState = TopoState(
    records: seq<RawRecord>,
    covered: set<string>,
    counts: map<string, nat>,
    seeds: seq<(string, seq<BuiltIn>, nat)>)

  /** A topology row yields a record when its target is not empty and one of its environments has the key. */
  predicate Yields(row: TopologyRow, ed: PulledMaps)
  {
    SortedTarget(row.target) != [] && FirstHolder(SortedTarget(row.target), ed, row.key) < |SortedTarget(row.target)|
  }

  /** `(keyTargetCount.get(idKey) ?? 0) + 1`. */
  function RowOrdinal(counts: map<string, nat>, row: TopologyRow): nat
  {
    var idKey := IdKey(row.key, SortedTarget(row.target));
    (if idKey in counts then counts[idKey] else 0) + 1
  }

  /** The record a yielding topology row pushes. */
  function RowRecord(counts: map<string, nat>, row: TopologyRow, ed: PulledMaps, digest: string -> string): RawRecord
    requires Yields(row, ed)
  {
    var target := SortedTarget(row.target);
    var value := Lookup(MapFor(ed, target[FirstHolder(target, ed, row.key)]), row.key).value;
    PlainRecord(EnvRecordId(row.key, target, RowOrdinal(counts, row), digest), row.key, value, target)
  }

  /** The `forEach` callback for one topology row. */
  function TopoStep(st: TopoState, row: TopologyRow, ed: PulledMaps, digest: string -> string): TopoState
  {
    if !Yields(row, ed) then st
    else
      TopoState(
        st.records + [RowRecord(st.counts, row, ed, digest)],
        st.covered + CoveredKeys(SortedTarget(row.target), row.key),
        st.counts[IdKey(row.key, SortedTarget(row.target)) := RowOrdinal(st.counts, row)],
        st.seeds + [(row.key, SortedTarget(row.target), RowOrdinal(st.counts, row))])
  }

  function TopologyFold(rows: seq<TopologyRow>, ed: PulledMaps, digest: string -> string): TopoState
  {
    if rows == [] then TopoState([], {}, map[], [])
    else TopoStep(TopologyFold(rows[..|rows| - 1], ed, digest), rows[|rows| - 1], ed, digest)
  }

  /** The single-environment records for the uncovered keys of one editable map. */
  function FallbackFor(env: BuiltIn, entries: EnvMap, covered: set<string>, digest: string -> string): seq<RawRecord>
  {
    if entries == [] then []
    else
      var p := entries[|entries| - 1];
      FallbackFor(env, entries[..|entries| - 1], covered, digest)
      + (if CoveredKey(env, p.0) in covered then [] else [PlainRecord(EnvRecordId(p.0, [env], 0, digest), p.0, p.1, [env])])
  }

  function FallbackRecords(envs: seq<BuiltIn>, ed: PulledMaps, covered: set<string>, digest: string -> string): seq<RawRecord>
  {
    if envs == [] then []
    else
      var e := envs[|envs| - 1];
      FallbackRecords(envs[..|envs| - 1], ed, covered, digest) + FallbackFor(e, MapFor(ed, e), covered, digest)
  }

  function OrderedRows(topologyRows: seq<TopologyRow>): seq<TopologyRow>
  {
    SortBy(topologyRows, RowKey)
  }

  /** The topology pass over the ordered rows. */
  function Topology(maps: PulledMaps, topologyRows: seq<TopologyRow>, digest: string -> string): TopoState
  {
    TopologyFold(OrderedRows(topologyRows), EditableMaps(maps), digest)
  }

  function Fallback(maps: PulledMaps, topologyRows: seq<TopologyRow>, digest: string -> string): seq<RawRecord>
  {
    FallbackRecords(FallbackOrder, EditableMaps(maps), Topology(maps, topologyRows, digest).covered, digest)
  }

  /** The records before the final sort. */
  function UnsortedRecords(maps: PulledMaps, topologyRows: seq<TopologyRow>, digest: string -> string): seq<RawRecord>
  {
    Topology(maps, topologyRows, digest).records + Fallback(maps, topologyRows, digest)
  }

  /** What `toRecords` returns. */
  function PulledRecords(maps: PulledMaps, topologyRows: seq<TopologyRow>, digest: string -> string): seq<RawRecord>
  {
    SortBy(UnsortedRecords(maps, topologyRows, digest), RecordKey)
  }

  // ---------------------------------------------------------------------
  // toRecords
  // ---------------------------------------------------------------------

  lemma CoveredKeysStep(target: seq<BuiltIn>, key: string, j: nat)
    requires j < |target|
    ensures CoveredKeys(target[..j + 1], key) == CoveredKeys(target[..j], key) + {CoveredKey(target[j], key)}
  {
    assert target[..j + 1] == target[..j] + [target[j]];
  }

  /** `target.forEach(environment => coveredPairs.add(...))`. */
  method CoverTarget(covered: set<string>, target: seq<BuiltIn>, key: string) returns (covered': set<string>)
    ensures covered' == covered + CoveredKeys(target, key)
  {
    covered' := covered;
    for j := 0 to |target|
      invariant covered' == covered + CoveredKeys(target[..j], key)
    {
      CoveredKeysStep(target, key, j);
      covered' := covered' + {CoveredKey(target[j], key)};
    }
    assert target[..|target|] == target;
  }

  /** The callback for one topology row, with its inner `forEach` over the target. */
  method VisitTopologyRow(row: TopologyRow, ed: PulledMaps, digest: string -> string,
                          records: seq<RawRecord>, covered: set<string>, counts: map<string, nat>,
                          ghost seeds: seq<(string, seq<BuiltIn>, nat)>)
    returns (records': seq<RawRecord>, covered': set<string>, counts': map<string, nat>,
             ghost seeds': seq<(string, seq<BuiltIn>, nat)>)
    ensures TopoState(records', covered', counts', seeds')
      == TopoStep(TopoState(records, covered, counts, seeds), row, ed, digest)
  {
    records', covered', counts', seeds' := records, covered, counts, seeds;
    var key := row.key;
    var target := SortedTarget(row.target);
    if target == [] {
      return;
    }
    var h := FirstHolder(target, ed, key);
    if h == |target| {
      return;
    }
    var value := Lookup(MapFor(ed, target[h]), key).value;
    covered' := CoverTarget(covered, target, key);
    var idKey := IdKey(key, target);
    var nextOrdinal := (if idKey in counts then counts[idKey] else 0) + 1;
    counts' := counts[idKey := nextOrdinal];
    records' := records + [PlainRecord(EnvRecordId(key, target, nextOrdinal, digest), key, value, target)];
    seeds' := seeds + [(key, target, nextOrdinal)];
  }

  lemma TopologyFoldStep(rows: seq<TopologyRow>, ed: PulledMaps, digest: string -> string, i: nat)
    requires i < |rows|
    ensures TopologyFold(rows[..i + 1], ed, digest) == TopoStep(TopologyFold(rows[..i], ed, digest), rows[i], ed, digest)
  {
    assert rows[..i + 1][..i] == rows[..i];
  }

  /** One entry of the fallback loop: a covered key adds nothing, any other key its record. */
  lemma FallbackForStep(records: seq<RawRecord>, r: seq<RawRecord>, env: BuiltIn, entries: EnvMap,
                        covered: set<string>, digest: string -> string, i: nat)
    requires i < |entries| && r == records + FallbackFor(env, entries[..i], covered, digest)
    ensures CoveredKey(env, entries[i].0) in covered ==> r == records + FallbackFor(env, entries[..i + 1], covered, digest)
    ensures CoveredKey(env, entries[i].0) !in covered ==>
      r + [PlainRecord(EnvRecordId(entries[i].0, [env], 0, digest), entries[i].0, entries[i].1, [env])]
      == records + FallbackFor(env, entries[..i + 1], covered, digest)
  {
    assert entries[..i + 1][..i] == entries[..i];
    var before := FallbackFor(env, entries[..i], covered, digest);
    var record := PlainRecord(EnvRecordId(entries[i].0, [env], 0, digest), entries[i].0, entries[i].1, [env]);
    if CoveredKey(env, entries[i].0) in covered {
      assert before + [] == before;
    } else {
      ConcatAssoc(records, before, [record]);
    }
  }

  lemma FallbackRecordsStep(records: seq<RawRecord>, envs: seq<BuiltIn>, ed: PulledMaps, covered: set<string>,
                            digest: string -> string, i: nat)
    requires i < |envs|
    ensures records + FallbackRecords(envs[..i + 1], ed, covered, digest)
      == (records + FallbackRecords(envs[..i], ed, covered, digest)) + FallbackFor(envs[i], MapFor(ed, envs[i]), covered, digest)
  {
    var upto := envs[..i + 1];
    assert upto[..|upto| - 1] == envs[..i];
    var before := FallbackRecords(envs[..i], ed, covered, digest);
    var added := FallbackFor(envs[i], MapFor(ed, envs[i]), covered, digest);
    assert FallbackRecords(upto, ed, covered, digest) == before + added;
    assert records + (before + added) == (records + before) + added;
  }

  /** The inner `forEach` of the fallback pass, over one editable map. */
  method AppendFallback(records: seq<RawRecord>, env: BuiltIn, entries: EnvMap, covered: set<string>, digest: string -> string)
    returns (r: seq<RawRecord>)
    ensures r == records + FallbackFor(env, entries, covered, digest)
  {
    r := records;
    for i := 0 to |entries|
      invariant r == records + FallbackFor(env, entries[..i], covered, digest)
    {
      FallbackForStep(records, r, env, entries, covered, digest, i);
      var key := entries[i].0;
      if CoveredKey(env, key) !in covered {
        r := r + [PlainRecord(EnvRecordId(key, [env], 0, digest), key, entries[i].1, [env])];
      }
    }
    assert entries[..|entries|] == entries;
  }

  /** The `orderedTopologyRows.forEach` pass. */
  method TopologyPass(ordered: seq<TopologyRow>, editableMaps: PulledMaps, digest: string -> string)
    returns (records: seq<RawRecord>, coveredPairs: set<string>, ghost st: TopoState)
    ensures st == TopologyFold(ordered, editableMaps, digest)
    ensures records == st.records && coveredPairs == st.covered
  {
    coveredPairs := {};
    var keyTargetCount: map<string, nat> := map[];
    ghost var seeds: seq<(string, seq<BuiltIn>, nat)> := [];
    records := [];
    for i := 0 to |ordered|
      invariant TopoState(records, coveredPairs, keyTargetCount, seeds) == TopologyFold(ordered[..i], editableMaps, digest)
    {
      TopologyFoldStep(ordered, editableMaps, digest, i);
      records, coveredPairs, keyTargetCount, seeds :=
        VisitTopologyRow(ordered[i], editableMaps, digest, records, coveredPairs, keyTargetCount, seeds);
    }
    assert ordered[..|ordered|] == ordered;
    st := TopoState(records, coveredPairs, keyTargetCount, seeds);
  }

  /** The `Object.keys(editableMaps).forEach` pass, over the environments in `environments`. */
  method FallbackPass(records: seq<RawRecord>, environments: seq<BuiltIn>, editableMaps: PulledMaps,
                      coveredPairs: set<string>, digest: string -> string)
    returns (r: seq<RawRecord>)
    ensures r == records + FallbackRecords(environments, editableMaps, coveredPairs, digest)
  {
    r := records;
    for i := 0 to |environments|
      invariant r == records + FallbackRecords(environments[..i], editableMaps, coveredPairs, digest)
    {
      FallbackRecordsStep(records, environments, editableMaps, coveredPairs, digest, i);
      r := AppendFallback(r, environments[i], MapFor(editableMaps, environments[i]), coveredPairs, digest);
    }
    assert environments[..|environments|] == environments;
  }

  /** `toRecords`. */
  method ToRecords(maps: PulledMaps, topologyRows: seq<TopologyRow>, digest: string -> string)
    returns (records: seq<RawRecord>)
    ensures records == PulledRecords(maps, topologyRows, digest)
  {
    var development, _ := FilterReservedRuntimeEnvKeys(maps.development);
    var preview, _ := FilterReservedRuntimeEnvKeys(maps.preview);
    var production, _ := FilterReservedRuntimeEnvKeys(maps.production);
    var editableMaps := PulledMaps(production, preview, development);
    assert editableMaps == EditableMaps(maps);

    var ordered := SortBy(topologyRows, RowKey);
    var coveredPairs;
    ghost var st;
    records, coveredPairs, st := TopologyPass(ordered, editableMaps, digest);
    records := FallbackPass(records, FallbackOrder, editableMaps, coveredPairs, digest);
    records := SortBy(records, RecordKey);
  }

  /** What `buildSnapshotFromPulledEnvs` returns: a snapshot still without its baseline hash. */
  datatype PulledSnapshot = PulledSnapshot(
    projectId: string,
    environments: seq<EnvironmentColumn>,
    records: seq<RawRecord>,
    capabilities: Capabilities)

  /** `buildSnapshotFromPulledEnvs`. */
  method BuildSnapshotFromPulledEnvs(projectId: string, maps: PulledMaps, topologyRows: seq<TopologyRow>, digest: string -> string)
    returns (s: PulledSnapshot)
    ensures s.projectId == projectId
    ensures s.environments == BuiltInColumns
    ensures s.records == PulledRecords(maps, topologyRows, digest)
    ensures s.capabilities == Capabilities(false, false)
  {
    var records := ToRecords(maps, topologyRows, digest);
    s := PulledSnapshot(projectId, BuiltInColumns, records, Capabilities(false, false));
  }

  // ---------------------------------------------------------------------
  // Properties
  // ---------------------------------------------------------------------

  /** Dotenv maps are JavaScript objects: no key appears twice. */
  predicate PulledMapsWellFormed(maps: PulledMaps)
  {
    DistinctKeys(maps.production) && DistinctKeys(maps.preview) && DistinctKeys(maps.development)
  }

  lemma EditableMapFor(maps: PulledMaps, e: BuiltIn)
    ensures MapFor(EditableMaps(maps), e) == Editable(MapFor(maps, e))
  {
    match e
    case Production =>
    case Preview =>
    case Development =>
  }

  /** The `coveredPairs` entries of distinct pairs are distinct strings. */
  lemma CoveredKeyInjective(e1: BuiltIn, k1: string, e2: BuiltIn, k2: string)
    requires CoveredKey(e1, k1) == CoveredKey(e2, k2)
    ensures e1 == e2 && k1 == k2
  {
    var s := CoveredKey(e1, k1);
    assert s[2] == BuiltInName(e1)[2] && s[2] == BuiltInName(e2)[2];
    assert e1 == e2;
    var n := |BuiltInName(e1) + "::"|;
    assert s[n..] == k1 && s[n..] == k2;
  }

  /** A record as both passes emit it: plain, non-empty sorted target, value from the first environment holding the key. */
  predicate WellFormedRecord(r: RawRecord, ed: PulledMaps)
  {
    r.vtype == Plain && r.customEnvironmentIds == [] && r.comment.None? && r.gitBranch.None?
    && !r.system && r.readOnlyReason.None?
    && r.target != [] && Sorted(r.target, EnvKey)
    && FirstHolder(r.target, ed, r.key) < |r.target|
    && Lookup(MapFor(ed, r.target[FirstHolder(r.target, ed, r.key)]), r.key) == Some(r.value)
    && StartsWith(r.id, IdPrefix(r.target))
  }

  lemma RowRecordFacts(counts: map<string, nat>, row: TopologyRow, ed: PulledMaps, digest: string -> string)
    requires Yields(row, ed)
    ensures RowRecord(counts, row, ed, digest).key == row.key
    ensures RowRecord(counts, row, ed, digest).target == SortedTarget(row.target)
    ensures RowRecord(counts, row, ed, digest).id == EnvRecordId(row.key, SortedTarget(row.target), RowOrdinal(counts, row), digest)
    ensures WellFormedRecord(RowRecord(counts, row, ed, digest), ed)
  {
  }

  lemma {:induction false} TopologyFoldRecords(rows: seq<TopologyRow>, ed: PulledMaps, digest: string -> string)
    ensures forall r :: r in TopologyFold(rows, ed, digest).records ==> WellFormedRecord(r, ed)
    decreases |rows|
  {
    if rows != [] {
      TopologyFoldRecords(rows[..|rows| - 1], ed, digest);
      var row := rows[|rows| - 1];
      if Yields(row, ed) {
        RowRecordFacts(TopologyFold(rows[..|rows| - 1], ed, digest).counts, row, ed, digest);
      }
    }
  }

  /** The topology rows that yield a record, in order. */
  function YieldingRows(rows: seq<TopologyRow>, ed: PulledMaps): (y: seq<TopologyRow>)
    ensures forall row :: row in y ==> row in rows && Yields(row, ed)
  {
    if rows == [] then []
    else
      var last := rows[|rows| - 1];
      YieldingRows(rows[..|rows| - 1], ed) + (if Yields(last, ed) then [last] else [])
  }

  lemma {:induction false} YieldingRowsComplete(rows: seq<TopologyRow>, ed: PulledMaps, row: TopologyRow)
    requires row in rows && Yields(row, ed)
    ensures row in YieldingRows(rows, ed)
    decreases |rows|
  {
    if rows[|rows| - 1] != row {
      var prefix := rows[..|rows| - 1];
      assert row in prefix by {
        var i :| 0 <= i < |rows| && rows[i] == row;
        assert prefix[i] == row;
      }
      YieldingRowsComplete(prefix, ed, row);
    }
  }

  /** The topology records are, position by position, the records of the yielding rows. */
  predicate RecordsFollowRows(records: seq<RawRecord>, y: seq<TopologyRow>)
  {
    |records| == |y|
    && forall i :: 0 <= i < |y| ==> records[i].key == y[i].key && records[i].target == SortedTarget(y[i].target)
  }

  lemma {:induction false} TopologyFoldRows(rows: seq<TopologyRow>, ed: PulledMaps, digest: string -> string)
    ensures RecordsFollowRows(TopologyFold(rows, ed, digest).records, YieldingRows(rows, ed))
    decreases |rows|
  {
    if rows != [] {
      var prefix := rows[..|rows| - 1];
      var last := rows[|rows| - 1];
      TopologyFoldRows(prefix, ed, digest);
      var st := TopologyFold(prefix, ed, digest);
      var y := YieldingRows(prefix, ed);
      if Yields(last, ed) {
        var rec := RowRecord(st.counts, last, ed, digest);
        RowRecordFacts(st.counts, last, ed, digest);
        assert TopologyFold(rows, ed, digest).records == st.records + [rec];
        assert YieldingRows(rows, ed) == y + [last];
        FollowSnoc(st.records, y, rec, last);
      } else {
        assert TopologyFold(rows, ed, digest) == st;
        assert YieldingRows(rows, ed) == y + [];
      }
    }
  }

  /** Appending a row's record and the row keeps the records following the rows. */
  lemma FollowSnoc(records: seq<RawRecord>, y: seq<TopologyRow>, rec: RawRecord, row: TopologyRow)
    requires RecordsFollowRows(records, y)
    requires rec.key == row.key && rec.target == SortedTarget(row.target)
    ensures RecordsFollowRows(records + [rec], y + [row])
  {
  }

  /** Some record of `records` has key `k` and lists environment `e`. */
  predicate Covers(records: seq<RawRecord>, e: BuiltIn, k: string)
  {
    exists r :: r in records && r.key == k && e in r.target
  }

  /** The `coveredPairs` entries the records account for. */
  function CoveredOf(records: seq<RawRecord>): set<string>
  {
    if records == [] then {}
    else CoveredOf(records[..|records| - 1]) + CoveredKeys(records[|records| - 1].target, records[|records| - 1].key)
  }

  lemma {:induction false} CoveredOfCovers(records: seq<RawRecord>, e: BuiltIn, k: string)
    ensures CoveredKey(e, k) in CoveredOf(records) <==> Covers(records, e, k)
    decreases |records|
  {
    if records != [] {
      var prefix := records[..|records| - 1];
      var last := records[|records| - 1];
      CoveredOfCovers(prefix, e, k);
      if CoveredKey(e, k) in CoveredKeys(last.target, last.key) {
        var e' :| e' in last.target && CoveredKey(e', last.key) == CoveredKey(e, k);
        CoveredKeyInjective(e', last.key, e, k);
      }
      CoversSnoc(records, e, k);
    }
  }

  /** A key is covered by a list of records when the prefix covers it or the last record does. */
  lemma CoversSnoc(records: seq<RawRecord>, e: BuiltIn, k: string)
    requires records != []
    ensures Covers(records, e, k) <==>
      Covers(records[..|records| - 1], e, k) || (records[|records| - 1].key == k && e in records[|records| - 1].target)
  {
    var prefix := records[..|records| - 1];
    var last := records[|records| - 1];
    assert records == prefix + [last];
    if Covers(records, e, k) && !Covers(prefix, e, k) {
      var r :| r in records && r.key == k && e in r.target;
      assert r == last;
    }
  }

  lemma {:induction false} TopologyFoldCovered(rows: seq<TopologyRow>, ed: PulledMaps, digest: string -> string)
    ensures TopologyFold(rows, ed, digest).covered == CoveredOf(TopologyFold(rows, ed, digest).records)
    decreases |rows|
  {
    if rows != [] {
      var prefix := rows[..|rows| - 1];
      var last := rows[|rows| - 1];
      TopologyFoldCovered(prefix, ed, digest);
      var st := TopologyFold(prefix, ed, digest);
      if Yields(last, ed) {
        var nr := RowRecord(st.counts, last, ed, digest);
        RowRecordFacts(st.counts, last, ed, digest);
        assert (st.records + [nr])[..|st.records|] == st.records;
      }
    }
  }

  /** A pair is in `coveredPairs` after the topology pass exactly when some topology record lists it. */
  lemma TopologyCovered(maps: PulledMaps, topologyRows: seq<TopologyRow>, digest: string -> string, e: BuiltIn, k: string)
    ensures CoveredKey(e, k) in Topology(maps, topologyRows, digest).covered <==> Covers(Topology(maps, topologyRows, digest).records, e, k)
  {
    TopologyFoldCovered(OrderedRows(topologyRows), EditableMaps(maps), digest);
    CoveredOfCovers(Topology(maps, topologyRows, digest).records, e, k);
  }

  function FallbackRecord(e: BuiltIn, k: string, v: string, digest: string -> string): RawRecord
  {
    PlainRecord(EnvRecordId(k, [e], 0, digest), k, v, [e])
  }

  lemma {:induction false} FallbackForRecords(env: BuiltIn, entries: EnvMap, covered: set<string>, digest: string -> string)
    ensures forall r :: r in FallbackFor(env, entries, covered, digest) ==>
      r == FallbackRecord(env, r.key, r.value, digest) && (r.key, r.value) in entries && CoveredKey(env, r.key) !in covered
    decreases |entries|
  {
    if entries != [] {
      FallbackForRecords(env, entries[..|entries| - 1], covered, digest);
    }
  }

  lemma {:induction false} FallbackRecordsMembers(envs: seq<BuiltIn>, ed: PulledMaps, covered: set<string>, digest: string -> string)
    ensures forall r :: r in FallbackRecords(envs, ed, covered, digest) ==>
      |r.target| == 1 && r.target[0] in envs && r in FallbackFor(r.target[0], MapFor(ed, r.target[0]), covered, digest)
    decreases |envs|
  {
    if envs != [] {
      var e := envs[|envs| - 1];
      FallbackRecordsMembers(envs[..|envs| - 1], ed, covered, digest);
      FallbackForRecords(e, MapFor(ed, e), covered, digest);
    }
  }

  lemma {:induction false} FallbackForComplete(env: BuiltIn, entries: EnvMap, covered: set<string>, digest: string -> string, k: string, v: string)
    requires (k, v) in entries && CoveredKey(env, k) !in covered
    ensures FallbackRecord(env, k, v, digest) in FallbackFor(env, entries, covered, digest)
    decreases |entries|
  {
    if entries[|entries| - 1] != (k, v) {
      var prefix := entries[..|entries| - 1];
      assert (k, v) in prefix by {
        var i :| 0 <= i < |entries| && entries[i] == (k, v);
        assert prefix[i] == (k, v);
      }
      FallbackForComplete(env, prefix, covered, digest, k, v);
    }
  }

  lemma DistinctKeysPrefix(m: EnvMap)
    requires DistinctKeys(m) && m != []
    ensures DistinctKeys(m[..|m| - 1])
    ensures forall p :: p in m[..|m| - 1] ==> p.0 != m[|m| - 1].0
  {
    forall p | p in m[..|m| - 1] ensures p.0 != m[|m| - 1].0 {
      var i :| 0 <= i < |m| - 1 && m[..|m| - 1][i] == p;
      assert m[i] == p;
    }
  }

  lemma {:induction false} FallbackForCount(env: BuiltIn, entries: EnvMap, covered: set<string>, digest: string -> string, k: string, v: string)
    requires DistinctKeys(entries)
    ensures multiset(FallbackFor(env, entries, covered, digest))[FallbackRecord(env, k, v, digest)]
      == if (k, v) in entries && CoveredKey(env, k) !in covered then 1 else 0
    decreases |entries|
  {
    if entries != [] {
      var prefix := entries[..|entries| - 1];
      var last := entries[|entries| - 1];
      var x := FallbackRecord(env, k, v, digest);
      var added := if CoveredKey(env, last.0) in covered then [] else [FallbackRecord(env, last.0, last.1, digest)];
      assert FallbackFor(env, entries, covered, digest) == FallbackFor(env, prefix, covered, digest) + added;
      assert multiset(FallbackFor(env, entries, covered, digest))[x]
        == multiset(FallbackFor(env, prefix, covered, digest))[x] + multiset(added)[x];
      DistinctKeysPrefix(entries);
      FallbackForCount(env, prefix, covered, digest, k, v);
      InLastOrPrefix(entries, (k, v));
      if last.0 == k {
        assert (k, v) !in prefix;
      }
    }
  }

  lemma InLastOrPrefix<T>(s: seq<T>, x: T)
    requires s != []
    ensures x in s <==> x in s[..|s| - 1] || x == s[|s| - 1]
  {
    assert s == s[..|s| - 1] + [s[|s| - 1]];
  }

  lemma {:induction false} FallbackRecordsCount(envs: seq<BuiltIn>, ed: PulledMaps, covered: set<string>, digest: string -> string,
                                                e: BuiltIn, k: string, v: string)
    requires forall i, j :: 0 <= i < j < |envs| ==> envs[i] != envs[j]
    requires DistinctKeys(MapFor(ed, e))
    ensures multiset(FallbackRecords(envs, ed, covered, digest))[FallbackRecord(e, k, v, digest)]
      == if e in envs && (k, v) in MapFor(ed, e) && CoveredKey(e, k) !in covered then 1 else 0
    decreases |envs|
  {
    if envs != [] {
      var prefix := envs[..|envs| - 1];
      var last := envs[|envs| - 1];
      FallbackRecordsCount(prefix, ed, covered, digest, e, k, v);
      if last == e {
        FallbackForCount(e, MapFor(ed, e), covered, digest, k, v);
        assert e !in prefix;
      } else {
        FallbackForRecords(last, MapFor(ed, last), covered, digest);
        assert FallbackRecord(e, k, v, digest) !in FallbackFor(last, MapFor(ed, last), covered, digest);
      }
    }
  }

  lemma FallbackOrderDistinct()
    ensures forall i, j :: 0 <= i < j < |FallbackOrder| ==> FallbackOrder[i] != FallbackOrder[j]
  {
    assert |FallbackOrder| == 3;
    assert FallbackOrder[0] == Development && FallbackOrder[1] == Preview && FallbackOrder[2] == Production;
  }

  /** The records come out ordered by key and then by the environment order of the first target, as a permutation of what the two passes built. */
  lemma PulledRecordsSorted(maps: PulledMaps, topologyRows: seq<TopologyRow>, digest: string -> string)
    ensures Sorted(PulledRecords(maps, topologyRows, digest), RecordKey)
    ensures multiset(PulledRecords(maps, topologyRows, digest)) == multiset(UnsortedRecords(maps, topologyRows, digest))
  {
    SortBySorted(UnsortedRecords(maps, topologyRows, digest), RecordKey);
  }

  /** A well-formed record's key is not reserved, and its value is also what the pulled map of its holder says. */
  predicate ComesFromPulled(r: RawRecord, maps: PulledMaps)
  {
    WellFormedRecord(r, EditableMaps(maps))
    && !IsReservedRuntimeEnvKey(r.key)
    && Lookup(MapFor(maps, r.target[FirstHolder(r.target, EditableMaps(maps), r.key)]), r.key) == Some(r.value)
  }

  lemma WellFormedComesFromPulled(r: RawRecord, maps: PulledMaps)
    requires WellFormedRecord(r, EditableMaps(maps))
    ensures ComesFromPulled(r, maps)
  {
    var holder := r.target[FirstHolder(r.target, EditableMaps(maps), r.key)];
    EditableMapFor(maps, holder);
    assert (r.key, r.value) in Editable(MapFor(maps, holder));
  }

  lemma FallbackForWellFormed(env: BuiltIn, ed: PulledMaps, covered: set<string>, digest: string -> string)
    requires DistinctKeys(MapFor(ed, env))
    ensures forall r :: r in FallbackFor(env, MapFor(ed, env), covered, digest) ==> WellFormedRecord(r, ed)
  {
    FallbackForRecords(env, MapFor(ed, env), covered, digest);
    forall r | r in FallbackFor(env, MapFor(ed, env), covered, digest) ensures WellFormedRecord(r, ed) {
      var i :| 0 <= i < |MapFor(ed, env)| && MapFor(ed, env)[i] == (r.key, r.value);
      LookupDistinct(MapFor(ed, env), i);
      assert FirstHolder(r.target, ed, r.key) == 0;
    }
  }

  lemma EditableMapsDistinct(maps: PulledMaps, e: BuiltIn)
    requires PulledMapsWellFormed(maps)
    ensures DistinctKeys(MapFor(EditableMaps(maps), e))
  {
    EditableMapFor(maps, e);
    FilterPartitions(MapFor(maps, e));
  }

  lemma FallbackWellFormed(maps: PulledMaps, topologyRows: seq<TopologyRow>, digest: string -> string)
    requires PulledMapsWellFormed(maps)
    ensures forall r :: r in Fallback(maps, topologyRows, digest) ==> WellFormedRecord(r, EditableMaps(maps))
  {
    var ed := EditableMaps(maps);
    var covered := Topology(maps, topologyRows, digest).covered;
    var records := FallbackRecords(FallbackOrder, ed, covered, digest);
    assert Fallback(maps, topologyRows, digest) == records;
    FallbackRecordsMembers(FallbackOrder, ed, covered, digest);
    forall r | r in records ensures WellFormedRecord(r, ed) {
      var e := r.target[0];
      EditableMapsDistinct(maps, e);
      FallbackForWellFormed(e, ed, covered, digest);
    }
  }

  /**
   * Every record is plain, with no custom environment, comment, branch or
   * read-only reason; its target is non-empty and sorted; its value is the
   * one the first environment of the target holding the key has, both in
   * the editable and in the pulled map; and its key is not reserved.
   */
  lemma PulledRecordsWellFormed(maps: PulledMaps, topologyRows: seq<TopologyRow>, digest: string -> string)
    requires PulledMapsWellFormed(maps)
    ensures forall r :: r in PulledRecords(maps, topologyRows, digest) ==> ComesFromPulled(r, maps)
  {
    PulledRecordsSorted(maps, topologyRows, digest);
    TopologyFoldRecords(OrderedRows(topologyRows), EditableMaps(maps), digest);
    FallbackWellFormed(maps, topologyRows, digest);
    forall r | r in PulledRecords(maps, topologyRows, digest) ensures ComesFromPulled(r, maps) {
      assert r in multiset(UnsortedRecords(maps, topologyRows, digest));
      WellFormedComesFromPulled(r, maps);
    }
  }

  /**
   * The topology records are, in order, one per ordered topology row that
   * has a non-empty target and a value somewhere, with that row's key and
   * its whole sorted target; every such row of the input is among them.
   */
  lemma TopologyRowsYieldRecords(maps: PulledMaps, topologyRows: seq<TopologyRow>, digest: string -> string)
    ensures RecordsFollowRows(Topology(maps, topologyRows, digest).records, YieldingRows(OrderedRows(topologyRows), EditableMaps(maps)))
    ensures forall row :: row in topologyRows && Yields(row, EditableMaps(maps)) ==> row in YieldingRows(OrderedRows(topologyRows), EditableMaps(maps))
  {
    var ordered := OrderedRows(topologyRows);
    TopologyFoldRows(ordered, EditableMaps(maps), digest);
    forall row | row in topologyRows && Yields(row, EditableMaps(maps))
      ensures row in YieldingRows(ordered, EditableMaps(maps))
    {
      assert row in multiset(topologyRows);
      assert row in multiset(ordered);
      YieldingRowsComplete(ordered, EditableMaps(maps), row);
    }
  }

  /** A pair some topology record lists gets no single-environment record. */
  lemma CoveredPairsNotRepeated(maps: PulledMaps, topologyRows: seq<TopologyRow>, digest: string -> string)
    ensures forall r, t :: r in Fallback(maps, topologyRows, digest) && t in Topology(maps, topologyRows, digest).records ==>
      |r.target| == 1 && !(t.key == r.key && r.target[0] in t.target)
  {
    var st := Topology(maps, topologyRows, digest);
    FallbackRecordsMembers(FallbackOrder, EditableMaps(maps), st.covered, digest);
    forall r, t | r in Fallback(maps, topologyRows, digest) && t in st.records
      ensures |r.target| == 1 && !(t.key == r.key && r.target[0] in t.target)
    {
      NotRepeatedPair(maps, topologyRows, digest, r, t);
    }
  }

  /** One single-environment record against one topology record. */
  lemma NotRepeatedPair(maps: PulledMaps, topologyRows: seq<TopologyRow>, digest: string -> string, r: RawRecord, t: RawRecord)
    requires r in Fallback(maps, topologyRows, digest) && t in Topology(maps, topologyRows, digest).records
    ensures |r.target| == 1 && !(t.key == r.key && r.target[0] in t.target)
  {
    var ed := EditableMaps(maps);
    var st := Topology(maps, topologyRows, digest);
    FallbackRecordsMembers(FallbackOrder, ed, st.covered, digest);
    assert |r.target| == 1 && r in FallbackFor(r.target[0], MapFor(ed, r.target[0]), st.covered, digest);
    var e := r.target[0];
    FallbackForRecords(e, MapFor(ed, e), st.covered, digest);
    assert CoveredKey(e, r.key) !in st.covered;
    TopologyCovered(maps, topologyRows, digest, e, r.key);
  }

  /** Among the single-environment records, only one can list `e` with key `k`. */
  lemma FallbackUnique(envs: seq<BuiltIn>, ed: PulledMaps, covered: set<string>, digest: string -> string, e: BuiltIn, k: string)
    requires DistinctKeys(MapFor(ed, e)) && HasKey(MapFor(ed, e), k)
    ensures forall r :: r in FallbackRecords(envs, ed, covered, digest) && r.key == k && e in r.target ==>
      r == FallbackRecord(e, k, Lookup(MapFor(ed, e), k).value, digest)
  {
    forall r | r in FallbackRecords(envs, ed, covered, digest) && r.key == k && e in r.target
      ensures r == FallbackRecord(e, k, Lookup(MapFor(ed, e), k).value, digest)
    {
      FallbackMember(envs, ed, covered, digest, r, e);
      FallbackForUnique(e, MapFor(ed, e), covered, digest, r);
    }
  }

  lemma {:induction false} FallbackMember(envs: seq<BuiltIn>, ed: PulledMaps, covered: set<string>, digest: string -> string,
                                          r: RawRecord, e: BuiltIn)
    requires r in FallbackRecords(envs, ed, covered, digest) && e in r.target
    ensures r in FallbackFor(e, MapFor(ed, e), covered, digest)
    decreases |envs|
  {
    var prefix := envs[..|envs| - 1];
    var last := envs[|envs| - 1];
    assert FallbackRecords(envs, ed, covered, digest)
      == FallbackRecords(prefix, ed, covered, digest) + FallbackFor(last, MapFor(ed, last), covered, digest);
    if r in FallbackRecords(prefix, ed, covered, digest) {
      FallbackMember(prefix, ed, covered, digest, r, e);
    } else {
      FallbackForRecords(last, MapFor(ed, last), covered, digest);
      assert r.target == [last];
    }
  }

  /** A fallback record of one environment carries the value its key has there. */
  lemma FallbackForUnique(e: BuiltIn, entries: EnvMap, covered: set<string>, digest: string -> string, r: RawRecord)
    requires DistinctKeys(entries) && r in FallbackFor(e, entries, covered, digest)
    ensures HasKey(entries, r.key) && r == FallbackRecord(e, r.key, Lookup(entries, r.key).value, digest)
  {
    FallbackForRecords(e, entries, covered, digest);
    var i :| 0 <= i < |entries| && entries[i] == (r.key, r.value);
    LookupDistinct(entries, i);
  }

  /**
   * An editable pair no topology record lists gets exactly one record: the
   * single-environment record with its value, and no other record lists
   * that key and environment.
   */
  lemma UncoveredPairOnce(maps: PulledMaps, topologyRows: seq<TopologyRow>, digest: string -> string, e: BuiltIn, k: string)
    requires PulledMapsWellFormed(maps)
    requires HasKey(MapFor(EditableMaps(maps), e), k)
    requires !Covers(Topology(maps, topologyRows, digest).records, e, k)
    ensures multiset(PulledRecords(maps, topologyRows, digest))
      [FallbackRecord(e, k, Lookup(MapFor(EditableMaps(maps), e), k).value, digest)] == 1
    ensures forall r :: r in PulledRecords(maps, topologyRows, digest) && r.key == k && e in r.target ==>
      r == FallbackRecord(e, k, Lookup(MapFor(EditableMaps(maps), e), k).value, digest)
  {
    var ed := EditableMaps(maps);
    var st := Topology(maps, topologyRows, digest);
    var v := Lookup(MapFor(ed, e), k).value;
    EditableMapsDistinct(maps, e);
    TopologyCovered(maps, topologyRows, digest, e, k);
    PulledRecordsSorted(maps, topologyRows, digest);
    FallbackOrderDistinct();
    FallbackRecordsCount(FallbackOrder, ed, st.covered, digest, e, k, v);
    FallbackUnique(FallbackOrder, ed, st.covered, digest, e, k);
    OnlyRecordListing(PulledRecords(maps, topologyRows, digest), st.records, Fallback(maps, topologyRows, digest),
                      FallbackRecord(e, k, v, digest), e, k);
  }

  lemma OnlyRecordListing(sorted: seq<RawRecord>, t: seq<RawRecord>, f: seq<RawRecord>, x: RawRecord, e: BuiltIn, k: string)
    requires multiset(sorted) == multiset(t + f)
    requires !Covers(t, e, k) && x.key == k && e in x.target
    requires multiset(f)[x] == 1
    requires forall r :: r in f && r.key == k && e in r.target ==> r == x
    ensures multiset(sorted)[x] == 1
    ensures forall r :: r in sorted && r.key == k && e in r.target ==> r == x
  {
    assert multiset(t + f) == multiset(t) + multiset(f);
    assert x !in t;
    forall r | r in sorted && r.key == k && e in r.target ensures r == x {
      assert r in multiset(t + f);
      assert r !in t;
    }
  }

  /** Every editable pair of the pulled maps ends up in some record listing that environment. */
  lemma EveryEditablePairEmitted(maps: PulledMaps, topologyRows: seq<TopologyRow>, digest: string -> string, e: BuiltIn, k: string)
    requires PulledMapsWellFormed(maps)
    requires HasKey(MapFor(maps, e), k) && !IsReservedRuntimeEnvKey(k)
    ensures Covers(PulledRecords(maps, topologyRows, digest), e, k)
  {
    var ed := EditableMaps(maps);
    EditableMapFor(maps, e);
    FilterPartitions(MapFor(maps, e));
    assert k !in Reserved(MapFor(maps, e));
    assert HasKey(MapFor(ed, e), k);
    PulledRecordsSorted(maps, topologyRows, digest);
    if Covers(Topology(maps, topologyRows, digest).records, e, k) {
      var r :| r in Topology(maps, topologyRows, digest).records && r.key == k && e in r.target;
      assert r in UnsortedRecords(maps, topologyRows, digest);
      assert r in multiset(PulledRecords(maps, topologyRows, digest));
    } else {
      UncoveredPairOnce(maps, topologyRows, digest, e, k);
      var fr := FallbackRecord(e, k, Lookup(MapFor(ed, e), k).value, digest);
      assert fr in PulledRecords(maps, topologyRows, digest);
    }
  }

  /** How many seeds share the `keyTargetCount` key `k`. */
  function CountIdKey(seeds: seq<(string, seq<BuiltIn>, nat)>, k: string): nat
  {
    if seeds == [] then 0
    else CountIdKey(seeds[..|seeds| - 1], k) + (if IdKey(seeds[|seeds| - 1].0, seeds[|seeds| - 1].1) == k then 1 else 0)
  }

  /** The counter holds, for each `keyTargetCount` key, how many seeds share it. */
  ghost predicate CountsMatch(st: TopoState)
  {
    forall k :: (if k in st.counts then st.counts[k] else 0) == CountIdKey(st.seeds, k)
  }

  /** The topology records line up with their seeds, and each id is built from its seed. */
  predicate SeedsMatch(st: TopoState, digest: string -> string)
  {
    |st.seeds| == |st.records|
    && forall i :: 0 <= i < |st.seeds| ==>
         st.records[i].key == st.seeds[i].0 && st.records[i].target == st.seeds[i].1
         && st.records[i].id == EnvRecordId(st.seeds[i].0, st.seeds[i].1, st.seeds[i].2, digest)
  }

  /**
   * Seeds of the same `keyTargetCount` key carry strictly increasing
   * ordinals between 1 and the number of seeds sharing that key: so the
   * n seeds of one key carry exactly 1, 2, ..., n.
   */
  ghost predicate OrdinalsCount(seeds: seq<(string, seq<BuiltIn>, nat)>)
  {
    (forall i :: 0 <= i < |seeds| ==> 1 <= seeds[i].2 <= CountIdKey(seeds, IdKey(seeds[i].0, seeds[i].1)))
    && (forall i, j :: 0 <= i < j < |seeds| && IdKey(seeds[i].0, seeds[i].1) == IdKey(seeds[j].0, seeds[j].1) ==>
          seeds[i].2 < seeds[j].2)
  }

  lemma CountIdKeySnoc(seeds: seq<(string, seq<BuiltIn>, nat)>, x: (string, seq<BuiltIn>, nat), k: string)
    ensures CountIdKey(seeds + [x], k) == CountIdKey(seeds, k) + (if IdKey(x.0, x.1) == k then 1 else 0)
  {
    assert (seeds + [x])[..|seeds|] == seeds;
  }

  lemma CountsSnoc(counts: map<string, nat>, seeds: seq<(string, seq<BuiltIn>, nat)>, x: (string, seq<BuiltIn>, nat))
    requires forall k :: (if k in counts then counts[k] else 0) == CountIdKey(seeds, k)
    requires x.2 == (if IdKey(x.0, x.1) in counts then counts[IdKey(x.0, x.1)] else 0) + 1
    ensures forall k :: ((if k in counts[IdKey(x.0, x.1) := x.2] then counts[IdKey(x.0, x.1) := x.2][k] else 0)
                         == CountIdKey(seeds + [x], k))
  {
    forall k ensures (if k in counts[IdKey(x.0, x.1) := x.2] then counts[IdKey(x.0, x.1) := x.2][k] else 0)
      == CountIdKey(seeds + [x], k)
    {
      CountIdKeySnoc(seeds, x, k);
    }
  }

  lemma OrdinalsSnoc(seeds: seq<(string, seq<BuiltIn>, nat)>, x: (string, seq<BuiltIn>, nat))
    requires OrdinalsCount(seeds)
    requires x.2 == 1 + CountIdKey(seeds, IdKey(x.0, x.1))
    ensures OrdinalsCount(seeds + [x])
  {
    var s' := seeds + [x];
    forall i | 0 <= i < |s'| ensures 1 <= s'[i].2 <= CountIdKey(s', IdKey(s'[i].0, s'[i].1)) {
      CountIdKeySnoc(seeds, x, IdKey(s'[i].0, s'[i].1));
    }
    forall i, j | 0 <= i < j < |s'| && IdKey(s'[i].0, s'[i].1) == IdKey(s'[j].0, s'[j].1)
      ensures s'[i].2 < s'[j].2
    {
      if j == |seeds| {
        assert s'[i] == seeds[i];
      }
    }
  }

  lemma TopoStepCounts(st: TopoState, row: TopologyRow, ed: PulledMaps, digest: string -> string)
    requires CountsMatch(st) && OrdinalsCount(st.seeds)
    ensures CountsMatch(TopoStep(st, row, ed, digest)) && OrdinalsCount(TopoStep(st, row, ed, digest).seeds)
  {
    if Yields(row, ed) {
      var x := (row.key, SortedTarget(row.target), RowOrdinal(st.counts, row));
      CountsSnoc(st.counts, st.seeds, x);
      OrdinalsSnoc(st.seeds, x);
    }
  }

  lemma TopoStepSeeds(st: TopoState, row: TopologyRow, ed: PulledMaps, digest: string -> string)
    requires SeedsMatch(st, digest)
    ensures SeedsMatch(TopoStep(st, row, ed, digest), digest)
  {
    if Yields(row, ed) {
      var rec := RowRecord(st.counts, row, ed, digest);
      var seed := (row.key, SortedTarget(row.target), RowOrdinal(st.counts, row));
      var st' := TopoStep(st, row, ed, digest);
      assert st'.records == st.records + [rec] && st'.seeds == st.seeds + [seed];
      RowRecordFacts(st.counts, row, ed, digest);
      SeedsSnoc(st, st', rec, seed, digest);
    }
  }

  /** Appending a record together with its matching seed keeps the seeds matched. */
  lemma SeedsSnoc(st: TopoState, st': TopoState, rec: RawRecord, seed: (string, seq<BuiltIn>, nat), digest: string -> string)
    requires SeedsMatch(st, digest)
    requires st'.records == st.records + [rec] && st'.seeds == st.seeds + [seed]
    requires rec.key == seed.0 && rec.target == seed.1 && rec.id == EnvRecordId(seed.0, seed.1, seed.2, digest)
    ensures SeedsMatch(st', digest)
  {
  }

  lemma {:induction false} TopologyFoldSeeds(rows: seq<TopologyRow>, ed: PulledMaps, digest: string -> string)
    ensures CountsMatch(TopologyFold(rows, ed, digest)) && OrdinalsCount(TopologyFold(rows, ed, digest).seeds)
    ensures SeedsMatch(TopologyFold(rows, ed, digest), digest)
    decreases |rows|
  {
    if rows != [] {
      var prefix := rows[..|rows| - 1];
      TopologyFoldSeeds(prefix, ed, digest);
      TopoStepCounts(TopologyFold(prefix, ed, digest), rows[|rows| - 1], ed, digest);
      TopoStepSeeds(TopologyFold(prefix, ed, digest), rows[|rows| - 1], ed, digest);
    }
  }

  /**
   * Each topology record's id is built from its key, its target and an
   * ordinal, and repeated (key, target) rows get the ordinals 1, 2, ...
   */
  lemma TopologyOrdinals(maps: PulledMaps, topologyRows: seq<TopologyRow>, digest: string -> string)
    ensures SeedsMatch(Topology(maps, topologyRows, digest), digest)
    ensures OrdinalsCount(Topology(maps, topologyRows, digest).seeds)
  {
    TopologyFoldSeeds(OrderedRows(topologyRows), EditableMaps(maps), digest);
  }
}
