/**
 * `planOperations` (src/lib/env-model/planner.ts): one operation per
 * detected change, carrying snapshots of the row before and after.
 */
module Planner {
  import opened Wrappers
  import opened EnvTypes
  import opened Normalize
  import opened ChangeDetector

  /** `toSnapshot`: the first value's content and the first source row's targets, each absent when its list is empty. */
  function ToSnapshot(row: Row): (s: OpSnapshot)
    ensures s.rowId == row.rowId && s.key == row.key
    ensures s.value.None? <==> row.values == []
    ensures s.value.Some? ==> s.value.value == row.values[0].content
    ensures s.target.None? <==> row.sourceRows == []
    ensures s.customEnvironmentIds.None? <==> row.sourceRows == []
    ensures row.sourceRows != [] ==>
      s.target == Some(row.sourceRows[0].target) && s.customEnvironmentIds == Some(row.sourceRows[0].customEnvironmentIds)
  {
    OpSnapshot(
      row.rowId,
      row.key,
      if row.values == [] then None else Some(row.values[0].content),
      if row.sourceRows == [] then None else Some(row.sourceRows[0].target),
      if row.sourceRows == [] then None else Some(row.sourceRows[0].customEnvironmentIds))
  }

  function MapChangeKind(kind: ChangeKind): OperationKind
  {
    match kind
    case CreateChange => CreateEnv
    case UpdateChange => UpdateEnv
    case DeleteChange => DeleteEnv
    case RenameChange => RenameKey
    case RetargetChange => Retarget
  }

  /** Distinct change kinds become distinct operation kinds. */
  lemma MapChangeKindInjective(a: ChangeKind, b: ChangeKind)
    requires MapChangeKind(a) == MapChangeKind(b)
    ensures a == b
  {
  }

  function SnapshotOf(index: map<string, Row>, rowId: string): Option<OpSnapshot>
  {
    if rowId in index then Some(ToSnapshot(index[rowId])) else None
  }

  function OperationFor(change: Change, baselineIndex: map<string, Row>, draftIndex: map<string, Row>): Operation
  {
    Operation(
      change.changeId,
      MapChangeKind(change.kind),
      change.summary,
      change.rowId,
      SnapshotOf(baselineIndex, change.rowId),
      SnapshotOf(draftIndex, change.rowId),
      "undo:" + change.changeId)
  }

  /** `planOperations(baseline, draft).operations`. */
  function PlanOperations(baseline: Draft, draft: Draft): (ops: seq<Operation>)
    ensures |ops| == |DetectedChanges(baseline, draft)|
    ensures forall i :: 0 <= i < |ops| ==>
      && ops[i].id == DetectedChanges(baseline, draft)[i].changeId
      && ops[i].undoToken == "undo:" + DetectedChanges(baseline, draft)[i].changeId
      && ops[i].kind == MapChangeKind(DetectedChanges(baseline, draft)[i].kind)
      && ops[i].summary == DetectedChanges(baseline, draft)[i].summary
      && ops[i].rowId == DetectedChanges(baseline, draft)[i].rowId
  {
    var changes := DetectedChanges(baseline, draft);
    var baselineIndex := RowIndex(baseline.rows);
    var draftIndex := RowIndex(draft.rows);
    seq(|changes|, i requires 0 <= i < |changes| => OperationFor(changes[i], baselineIndex, draftIndex))
  }

  /**
   * `before` is absent exactly when the baseline has no row with the
   * operation's rowId, `after` exactly when the draft has none; present
   * snapshots are of the last row carrying that id.
   */
  lemma PlannedSnapshots(baseline: Draft, draft: Draft, i: nat)
    requires i < |PlanOperations(baseline, draft)|
    ensures PlanOperations(baseline, draft)[i].before.None? <==> !HasRow(baseline.rows, PlanOperations(baseline, draft)[i].rowId)
    ensures PlanOperations(baseline, draft)[i].after.None? <==> !HasRow(draft.rows, PlanOperations(baseline, draft)[i].rowId)
    ensures PlanOperations(baseline, draft)[i].before.Some? ==>
      PlanOperations(baseline, draft)[i].before == Some(ToSnapshot(LastRow(baseline.rows, PlanOperations(baseline, draft)[i].rowId).value))
    ensures PlanOperations(baseline, draft)[i].after.Some? ==>
      PlanOperations(baseline, draft)[i].after == Some(ToSnapshot(LastRow(draft.rows, PlanOperations(baseline, draft)[i].rowId).value))
  {
    var id := PlanOperations(baseline, draft)[i].rowId;
    RowIndexLookup(baseline.rows, id);
    RowIndexLookup(draft.rows, id);
  }

  /** Creates have no before snapshot and deletes have no after snapshot. */
  lemma CreatesHaveNoBefore(baseline: Draft, draft: Draft, i: nat)
    requires i < |PlanOperations(baseline, draft)|
    requires PlanOperations(baseline, draft)[i].kind == CreateEnv
    ensures PlanOperations(baseline, draft)[i].before.None?
    ensures PlanOperations(baseline, draft)[i].after.Some?
  {
    var changes := DetectedChanges(baseline, draft);
    var c := changes[i];
    assert c in changes;
    ChangeRows(baseline, draft, c);
    assert c.kind == CreateChange;
    PlannedSnapshots(baseline, draft, i);
  }

  lemma DeletesHaveNoAfter(baseline: Draft, draft: Draft, i: nat)
    requires i < |PlanOperations(baseline, draft)|
    requires PlanOperations(baseline, draft)[i].kind == DeleteEnv
    ensures PlanOperations(baseline, draft)[i].before.Some?
    ensures PlanOperations(baseline, draft)[i].after.None?
  {
    var changes := DetectedChanges(baseline, draft);
    var c := changes[i];
    assert c in changes;
    ChangeRows(baseline, draft, c);
    assert c.kind == DeleteChange;
    PlannedSnapshots(baseline, draft, i);
  }

  /** A create names a row only the draft has, a delete one only the baseline has. */
  lemma ChangeRows(baseline: Draft, draft: Draft, c: Change)
    requires c in DetectedChanges(baseline, draft)
    ensures c.kind == CreateChange ==> !HasRow(baseline.rows, c.rowId) && HasRow(draft.rows, c.rowId)
    ensures c.kind == DeleteChange ==> HasRow(baseline.rows, c.rowId) && !HasRow(draft.rows, c.rowId)
  {
    var creates := Creates(draft.rows, baseline.rows);
    var deletes := Deletes(baseline.rows, draft.rows);
    var shared := Shared(draft.rows, baseline.rows);
    assert c in creates || c in deletes || c in shared;
    if c in creates {
      CreatesExact(draft.rows, baseline.rows);
    } else if c in deletes {
      DeletesExact(baseline.rows, draft.rows);
    } else {
      SharedKinds(draft.rows, baseline.rows);
    }
  }

  /** Per-row changes are renames, updates and retargets only. */
  lemma {:induction false} SharedKinds(draftRows: seq<Row>, baselineRows: seq<Row>)
    ensures forall c :: c in Shared(draftRows, baselineRows) ==>
      c.kind in {RenameChange, UpdateChange, RetargetChange} && HasRow(baselineRows, c.rowId) && HasRow(draftRows, c.rowId)
    decreases |draftRows|
  {
    if draftRows != [] {
      var prefix := draftRows[..|draftRows| - 1];
      var row := draftRows[|draftRows| - 1];
      SharedKinds(prefix, baselineRows);
      SharedLast(draftRows, baselineRows);
      SharedOfRowKinds(baselineRows, row);
      forall c | c in Shared(draftRows, baselineRows)
        ensures c.kind in {RenameChange, UpdateChange, RetargetChange} && HasRow(baselineRows, c.rowId) && HasRow(draftRows, c.rowId)
      {
        if c in Shared(prefix, baselineRows) {
          var k :| 0 <= k < |prefix| && prefix[k].rowId == c.rowId;
          assert draftRows[k] == prefix[k];
        } else {
          assert draftRows[|draftRows| - 1].rowId == c.rowId;
        }
      }
    }
  }

  /** The changes of one shared row are per-row kinds, about that row, which the baseline has. */
  lemma SharedOfRowKinds(baselineRows: seq<Row>, row: Row)
    ensures forall c :: c in SharedOfRow(baselineRows, row) ==>
      c.kind in {RenameChange, UpdateChange, RetargetChange} && c.rowId == row.rowId && HasRow(baselineRows, row.rowId)
  {
    if LastRow(baselineRows, row.rowId).Some? {
      RowChangesIff(LastRow(baselineRows, row.rowId).value, row);
    }
  }

  /** A draft equal to its baseline, with distinct row ids, plans no operations. */
  lemma ClonePlansNothing(baseline: Draft, draft: Draft)
    requires baseline.rows == draft.rows
    requires DistinctRowIds(draft.rows)
    ensures PlanOperations(baseline, draft) == []
  {
    NoChangesForIdenticalDrafts(baseline, draft);
  }

  /**
   * The normalised draft of any snapshot, planned against a clone of itself,
   * gives no operations, even for a key whose records carry different values.
   */
  lemma NormalizedClonePlansNothing(snapshot: Snapshot, clone: Draft)
    requires clone == NormalizedDraft(snapshot)
    ensures PlanOperations(NormalizedDraft(snapshot), clone) == []
  {
    NormalizedRows(snapshot);
    ClonePlansNothing(NormalizedDraft(snapshot), clone);
  }
}
