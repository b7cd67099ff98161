/**
 * Undoing the edits of one row (src/tui/editor/undo.ts): a row only the
 * draft has is dropped, an edited row is restored from the baseline.
 */
module Undo {
  import opened Wrappers
  import opened EnvTypes

  /**
   * `rowFingerprint` compared for equality: key, values, assignments and
   * isNew (the row id and sourceRows are not compared).
   */
  predicate SameFingerprint(a: Row, b: Row)
  {
    a.key == b.key && a.values == b.values && a.assignments == b.assignments && a.isNew == b.isNew
  }

  datatype UndoRowResult = UndoRowResult(draft: Draft, changed: bool)

  /** `rows.filter(row => row.rowId !== rowId)`. */
  function DropRow(rows: seq<Row>, rowId: string): (r: seq<Row>)
    ensures forall x :: x in r <==> x in rows && x.rowId != rowId
  {
    if rows == [] then []
    else (if rows[0].rowId == rowId then [] else [rows[0]]) + DropRow(rows[1..], rowId)
  }

  /** `rows.map(row => row.rowId === rowId ? structuredClone(baselineRow) : row)`. */
  function RestoreRow(rows: seq<Row>, rowId: string, baselineRow: Row): (r: seq<Row>)
    ensures |r| == |rows|
    ensures forall i :: 0 <= i < |rows| ==> r[i] == if rows[i].rowId == rowId then baselineRow else rows[i]
  {
    seq(|rows|, i requires 0 <= i < |rows| => if rows[i].rowId == rowId then baselineRow else rows[i])
  }

  /** `undoRowDraftChange`. */
  function UndoRowDraftChange(baseline: Draft, draft: Draft, rowId: string): (r: UndoRowResult)
    ensures FindRow(draft.rows, rowId).None? ==> r == UndoRowResult(draft, false)
    ensures FindRow(draft.rows, rowId).Some? && FindRow(baseline.rows, rowId).None? ==>
      r.changed && r.draft == draft.(rows := DropRow(draft.rows, rowId))
    ensures FindRow(draft.rows, rowId).Some? && FindRow(baseline.rows, rowId).Some? ==>
      (r.changed <==> !SameFingerprint(FindRow(draft.rows, rowId).value, FindRow(baseline.rows, rowId).value))
    ensures r.draft.projectId == draft.projectId && r.draft.environments == draft.environments
      && r.draft.sourceRowIndex == draft.sourceRowIndex && r.draft.baselineHash == draft.baselineHash
  {
    match FindRow(draft.rows, rowId)
    case None => UndoRowResult(draft, false)
    case Some(draftRow) =>
      match FindRow(baseline.rows, rowId)
      case None => UndoRowResult(draft.(rows := DropRow(draft.rows, rowId)), true)
      case Some(baselineRow) =>
        if SameFingerprint(draftRow, baselineRow) then UndoRowResult(draft, false)
        else UndoRowResult(draft.(rows := RestoreRow(draft.rows, rowId, baselineRow)), true)
  }

  /** A restore puts the baseline row where every draft row of that id stood, and touches no other row. */
  lemma RestoreInPlace(baseline: Draft, draft: Draft, rowId: string)
    requires FindRow(draft.rows, rowId).Some? && FindRow(baseline.rows, rowId).Some?
    requires UndoRowDraftChange(baseline, draft, rowId).changed
    ensures |UndoRowDraftChange(baseline, draft, rowId).draft.rows| == |draft.rows|
    ensures forall i :: 0 <= i < |draft.rows| ==>
      UndoRowDraftChange(baseline, draft, rowId).draft.rows[i]
        == if draft.rows[i].rowId == rowId then FindRow(baseline.rows, rowId).value else draft.rows[i]
  {
  }

  /** Dropping a draft-only row leaves no row of that id and keeps every other row. */
  lemma DropKeepsOthers(baseline: Draft, draft: Draft, rowId: string)
    requires FindRow(draft.rows, rowId).Some? && FindRow(baseline.rows, rowId).None?
    ensures !HasRow(UndoRowDraftChange(baseline, draft, rowId).draft.rows, rowId)
    ensures forall x :: x in draft.rows && x.rowId != rowId ==> x in UndoRowDraftChange(baseline, draft, rowId).draft.rows
  {
    var r := UndoRowDraftChange(baseline, draft, rowId).draft.rows;
    assert forall j :: 0 <= j < |r| ==> r[j] in r;
  }

  /** Undoing a second time finds nothing left to undo. */
  lemma {:induction false} UndoIdempotent(baseline: Draft, draft: Draft, rowId: string)
    ensures !UndoRowDraftChange(baseline, UndoRowDraftChange(baseline, draft, rowId).draft, rowId).changed
  {
    var once := UndoRowDraftChange(baseline, draft, rowId).draft;
    match FindRow(draft.rows, rowId)
    case None =>
    case Some(draftRow) =>
      match FindRow(baseline.rows, rowId)
      case None =>
        assert !HasRow(once.rows, rowId) by {
          assert forall j :: 0 <= j < |once.rows| ==> once.rows[j] in once.rows;
        }
      case Some(baselineRow) =>
        if !SameFingerprint(draftRow, baselineRow) {
          var f := FindRow(once.rows, rowId).value;
          var k :| 0 <= k < |once.rows| && once.rows[k] == f;
          assert f == baselineRow;
        }
  }

  /** Undo keeps every assignment pointing into its own row's pool when the baseline did. */
  lemma UndoKeepsAssignmentsValid(baseline: Draft, draft: Draft, rowId: string)
    requires DraftAssignmentsValid(baseline) && DraftAssignmentsValid(draft)
    ensures DraftAssignmentsValid(UndoRowDraftChange(baseline, draft, rowId).draft)
  {
    var r := UndoRowDraftChange(baseline, draft, rowId).draft;
    forall i | 0 <= i < |r.rows| ensures RowAssignmentsValid(r.rows[i]) {
      if FindRow(draft.rows, rowId).Some? && FindRow(baseline.rows, rowId).None? {
        assert r.rows[i] in draft.rows;
      } else if FindRow(draft.rows, rowId).Some? && FindRow(baseline.rows, rowId).Some? {
        var b := FindRow(baseline.rows, rowId).value;
        var k :| 0 <= k < |baseline.rows| && baseline.rows[k] == b;
        assert RowAssignmentsValid(baseline.rows[k]);
      }
    }
  }

  /** A row the baseline also has, and that was not edited, is left alone. */
  lemma UnchangedRowKept(baseline: Draft, draft: Draft, rowId: string)
    requires FindRow(draft.rows, rowId).Some? && FindRow(baseline.rows, rowId).Some?
    requires FindRow(draft.rows, rowId).value == FindRow(baseline.rows, rowId).value
    ensures UndoRowDraftChange(baseline, draft, rowId) == UndoRowResult(draft, false)
  {
  }
}
