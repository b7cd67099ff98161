/**
 * The editor's draft store (src/lib/env-model/draft-store.ts): the baseline
 * the snapshot was normalised into, the draft being edited, and the changes
 * last computed between them. The random UUID of a new row is a parameter.
 */
module EnvDraftStore {
  import opened Wrappers
  import opened Strings
  import opened EnvTypes
  import opened Normalize
  import opened ChangeDetector

  /** The row `addRow` appends: empty pool, every column explicitly null, marked new. */
  function NewRow(envs: seq<EnvironmentColumn>, key: string, uuid: string): (row: Row)
    ensures StartsWith(row.rowId, "row:new:")
    ensures row.key == key && row.isNew
    ensures row.values == [] && row.sourceRows == []
    ensures forall e :: e in row.assignments <==> exists i :: 0 <= i < |envs| && envs[i].id == e
    ensures forall e :: e in row.assignments ==> row.assignments[e] == None
  {
    assert ("row:new:" + uuid)[..8] == "row:new:";
    Row("row:new:" + uuid, key, [], EmptyAssignments(envs), [], true)
  }

  /** `rows.filter(item => item.rowId !== rowId)`. */
  function WithoutRow(rows: seq<Row>, rowId: string): (r: seq<Row>)
    ensures forall x :: x in r <==> x in rows && x.rowId != rowId
    ensures |r| <= |rows|
  {
    if rows == [] then []
    else (if rows[0].rowId == rowId then [] else [rows[0]]) + WithoutRow(rows[1..], rowId)
  }

  /** `rows.map(row => row.rowId === rowId ? {...row, key} : row)`. */
  function RenamedRows(rows: seq<Row>, rowId: string, key: string): (r: seq<Row>)
    ensures |r| == |rows|
    ensures forall i :: 0 <= i < |rows| ==>
      r[i].rowId == rows[i].rowId && r[i].values == rows[i].values && r[i].assignments == rows[i].assignments
      && r[i].sourceRows == rows[i].sourceRows && r[i].isNew == rows[i].isNew
      && r[i].key == (if rows[i].rowId == rowId then key else rows[i].key)
  {
    seq(|rows|, i requires 0 <= i < |rows| => if rows[i].rowId == rowId then rows[i].(key := key) else rows[i])
  }

  /** The draft after `removeRow`: unchanged unless the first row with that id exists and is new. */
  function RemoveRowFrom(d: Draft, rowId: string): Draft
  {
    match FindRow(d.rows, rowId)
    case None => d
    case Some(row) => if !row.isNew then d else d.(rows := WithoutRow(d.rows, rowId))
  }

  // ---------------------------------------------------------------------
  // The edits keep every assignment pointing into its own row's pool
  // ---------------------------------------------------------------------

  lemma AddRowKeepsAssignmentsValid(d: Draft, key: string, uuid: string)
    requires DraftAssignmentsValid(d)
    ensures DraftAssignmentsValid(d.(rows := d.rows + [NewRow(d.environments, key, uuid)]))
  {
  }

  lemma RemoveRowKeepsAssignmentsValid(d: Draft, rowId: string)
    requires DraftAssignmentsValid(d)
    ensures DraftAssignmentsValid(RemoveRowFrom(d, rowId))
  {
    var r := RemoveRowFrom(d, rowId);
    forall i | 0 <= i < |r.rows| ensures RowAssignmentsValid(r.rows[i]) {
      assert r.rows[i] in d.rows;
    }
  }

  lemma RenameKeepsAssignmentsValid(d: Draft, rowId: string, key: string)
    requires DraftAssignmentsValid(d)
    ensures DraftAssignmentsValid(d.(rows := RenamedRows(d.rows, rowId, key)))
  {
    var r := RenamedRows(d.rows, rowId, key);
    forall i | 0 <= i < |r| ensures RowAssignmentsValid(r[i]) {
      assert RowAssignmentsValid(d.rows[i]);
    }
  }

  /** A row that is not new, or an unknown id, leaves the draft as it was. */
  lemma RemoveRowRefusesBaselineRows(d: Draft, rowId: string)
    requires FindRow(d.rows, rowId).None? || !FindRow(d.rows, rowId).value.isNew
    ensures RemoveRowFrom(d, rowId) == d
  {
  }

  /** Removing a new row drops every row with that id and keeps the others. */
  lemma RemoveRowDropsOnlyThatId(d: Draft, rowId: string)
    requires FindRow(d.rows, rowId).Some? && FindRow(d.rows, rowId).value.isNew
    ensures !HasRow(RemoveRowFrom(d, rowId).rows, rowId)
    ensures forall x :: x in d.rows && x.rowId != rowId ==> x in RemoveRowFrom(d, rowId).rows
  {
    var r := RemoveRowFrom(d, rowId).rows;
    assert forall j :: 0 <= j < |r| ==> r[j] in r;
  }

  /**
   * Appending a row with a fresh id to an unedited draft makes the change
   * detector report exactly one change: the create of that row.
   */
  lemma AddRowDetectedAsCreate(baseline: Draft, d: Draft, key: string, uuid: string)
    requires d.rows == baseline.rows
    requires DistinctRowIds(baseline.rows)
    requires !HasRow(baseline.rows, NewRow(d.environments, key, uuid).rowId)
    ensures DetectedChanges(baseline, d.(rows := d.rows + [NewRow(d.environments, key, uuid)]))
      == [CreateChangeFor(NewRow(d.environments, key, uuid))]
  {
    var row := NewRow(d.environments, key, uuid);
    var rows := d.rows + [row];
    assert rows[..|rows| - 1] == d.rows;
    CreatesOfSelf(d.rows, baseline.rows);
    assert Creates(rows, baseline.rows) == [CreateChangeFor(row)];
    forall i | 0 <= i < |baseline.rows| ensures baseline.rows[i] in rows {
      assert rows[i] == baseline.rows[i];
    }
    DeletesOfSelf(baseline.rows, rows);
    SharedOfSelf(d.rows, baseline.rows);
    assert Shared(rows, baseline.rows) == [];
  }

  /** Renaming a row of an unedited draft to a different key is reported as exactly one rename. */
  lemma RenameDetectedAsRename(baseline: Draft, d: Draft, i: nat, key: string)
    requires d.rows == baseline.rows
    requires DistinctRowIds(baseline.rows)
    requires i < |d.rows| && d.rows[i].key != key
    ensures DetectedChanges(baseline, d.(rows := RenamedRows(d.rows, d.rows[i].rowId, key)))
      == [Change("rename:" + d.rows[i].rowId, RenameChange, d.rows[i].rowId, "Rename key " + d.rows[i].key + " -> " + key)]
  {
    var id := d.rows[i].rowId;
    var rows := RenamedRows(d.rows, id, key);
    forall j | 0 <= j < |rows| ensures HasRow(baseline.rows, rows[j].rowId) {
      assert baseline.rows[j].rowId == rows[j].rowId;
    }
    CreatesNone(rows, baseline.rows);
    forall j | 0 <= j < |baseline.rows| ensures HasRow(rows, baseline.rows[j].rowId) {
      assert baseline.rows[j].rowId == rows[j].rowId;
    }
    DeletesNone(baseline.rows, rows);
    SharedRenamed(baseline.rows, i, key);
  }

  lemma {:induction false} CreatesNone(rows: seq<Row>, baselineRows: seq<Row>)
    requires forall j :: 0 <= j < |rows| ==> HasRow(baselineRows, rows[j].rowId)
    ensures Creates(rows, baselineRows) == []
    decreases |rows|
  {
    if rows != [] {
      CreatesNone(rows[..|rows| - 1], baselineRows);
    }
  }

  lemma {:induction false} DeletesNone(rows: seq<Row>, draftRows: seq<Row>)
    requires forall j :: 0 <= j < |rows| ==> HasRow(draftRows, rows[j].rowId)
    ensures Deletes(rows, draftRows) == []
    decreases |rows|
  {
    if rows != [] {
      DeletesNone(rows[..|rows| - 1], draftRows);
    }
  }

  /** The last row carrying a row's own id, among rows with distinct ids, is that row. */
  lemma LastRowOfDistinct(rows: seq<Row>, j: nat)
    requires DistinctRowIds(rows) && j < |rows|
    ensures LastRow(rows, rows[j].rowId) == Some(rows[j])
  {
    var l := LastRow(rows, rows[j].rowId).value;
    var k :| 0 <= k < |rows| && rows[k] == l;
  }

  /** Against the original rows, only the renamed row shows per-row changes. */
  lemma SharedRenamed(rows: seq<Row>, i: nat, key: string)
    requires DistinctRowIds(rows) && i < |rows|
    ensures Shared(RenamedRows(rows, rows[i].rowId, key), rows) == RowChanges(rows[i], rows[i].(key := key))
  {
    var row := rows[i].(key := key);
    RenamedSplit(rows, i, key);
    SharedAppend(rows[..i] + [row], rows[i + 1..], rows);
    SharedAppend(rows[..i], [row], rows);
    SharedOfPrefix(rows, i);
    SharedOfSuffix(rows, i + 1);
    LastRowOfDistinct(rows, i);
    SharedOfOne(row, rows[i], rows);
  }

  lemma RenamedAt(rows: seq<Row>, rowId: string, key: string, j: nat)
    requires j < |rows|
    ensures RenamedRows(rows, rowId, key)[j] == if rows[j].rowId == rowId then rows[j].(key := key) else rows[j]
  {
  }

  /** Renaming the row at `i` (ids distinct) changes that row alone. */
  lemma RenamedSplit(rows: seq<Row>, i: nat, key: string)
    requires DistinctRowIds(rows) && i < |rows|
    ensures RenamedRows(rows, rows[i].rowId, key) == rows[..i] + [rows[i].(key := key)] + rows[i + 1..]
  {
    var renamed := RenamedRows(rows, rows[i].rowId, key);
    var split := rows[..i] + [rows[i].(key := key)] + rows[i + 1..];
    forall j | 0 <= j < |rows| ensures renamed[j] == split[j] {
      RenamedAt(rows, rows[i].rowId, key, j);
      if j < i {
        assert split[j] == rows[j];
      } else if j > i {
        assert split[j] == rows[i + 1..][j - i - 1];
      }
    }
  }

  // ---------------------------------------------------------------------
  // The store
  // ---------------------------------------------------------------------

  class DraftStore {
    var baseline: Option<Draft>
    var draft: Option<Draft>
    var pendingChanges: seq<Change>

    /** The store's initial state: nothing loaded. */
    constructor ()
      ensures baseline == None && draft == None && pendingChanges == []
    {
      baseline := None;
      draft := None;
      pendingChanges := [];
    }

    /** Baseline and draft both become the normalised snapshot, and nothing is pending. */
    method InitializeFromSnapshot(snapshot: Snapshot)
      modifies this
      ensures baseline == Some(NormalizedDraft(snapshot))
      ensures draft == baseline
      ensures pendingChanges == []
      ensures DraftAssignmentsValid(draft.value) && DistinctRowIds(draft.value.rows)
    {
      var normalized := NormalizeSnapshotToDraft(snapshot);
      NormalizedRows(snapshot);
      baseline := Some(normalized);
      draft := Some(normalized);
      pendingChanges := [];
    }

    method SetDraft(nextDraft: Draft)
      modifies this
      ensures draft == Some(nextDraft)
      ensures baseline == old(baseline) && pendingChanges == old(pendingChanges)
    {
      draft := Some(nextDraft);
    }

    method SetPendingChanges(changes: seq<Change>)
      modifies this
      ensures pendingChanges == changes
      ensures baseline == old(baseline) && draft == old(draft)
    {
      pendingChanges := changes;
    }

    /** Appends a new row, keyed `key`, whose id is built from `uuid`; nothing happens without a draft. */
    method AddRow(key: string, uuid: string)
      modifies this
      ensures old(draft).None? ==> draft == None
      ensures old(draft).Some? ==>
        draft == Some(old(draft).value.(rows := old(draft).value.rows + [NewRow(old(draft).value.environments, key, uuid)]))
      ensures baseline == old(baseline) && pendingChanges == old(pendingChanges)
      ensures old(draft).Some? && DraftAssignmentsValid(old(draft).value) ==> DraftAssignmentsValid(draft.value)
    {
      if draft.Some? {
        var d := draft.value;
        if DraftAssignmentsValid(d) { AddRowKeepsAssignmentsValid(d, key, uuid); }
        draft := Some(d.(rows := d.rows + [NewRow(d.environments, key, uuid)]));
      }
    }

    method RemoveRow(rowId: string)
      modifies this
      ensures old(draft).None? ==> draft == None
      ensures old(draft).Some? ==> draft == Some(RemoveRowFrom(old(draft).value, rowId))
      ensures baseline == old(baseline) && pendingChanges == old(pendingChanges)
      ensures old(draft).Some? && DraftAssignmentsValid(old(draft).value) ==> DraftAssignmentsValid(draft.value)
    {
      if draft.Some? {
        var d := draft.value;
        if DraftAssignmentsValid(d) { RemoveRowKeepsAssignmentsValid(d, rowId); }
        var row := FindRow(d.rows, rowId);
        if row.Some? && row.value.isNew {
          draft := Some(d.(rows := WithoutRow(d.rows, rowId)));
        }
      }
    }

    method RenameRowKey(rowId: string, key: string)
      modifies this
      ensures old(draft).None? ==> draft == None
      ensures old(draft).Some? ==> draft == Some(old(draft).value.(rows := RenamedRows(old(draft).value.rows, rowId, key)))
      ensures baseline == old(baseline) && pendingChanges == old(pendingChanges)
      ensures old(draft).Some? && DraftAssignmentsValid(old(draft).value) ==> DraftAssignmentsValid(draft.value)
    {
      if draft.Some? {
        var d := draft.value;
        if DraftAssignmentsValid(d) { RenameKeepsAssignmentsValid(d, rowId, key); }
        draft := Some(d.(rows := RenamedRows(d.rows, rowId, key)));
      }
    }

    method Reset()
      modifies this
      ensures baseline == None && draft == None && pendingChanges == []
    {
      baseline := None;
      draft := None;
      pendingChanges := [];
    }
  }
}
