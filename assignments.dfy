/**
 * Per-environment assignment editing (src/tui/editor/assignments.ts): the
 * permission check a cell edit must pass, and the edit itself.
 */
module AssignmentEdits {
  import opened Wrappers
  import opened EnvTypes

  datatype BlockReason = RowEncrypted | BranchUnsupported | CustomEnvironmentUnsupported | EnvironmentMissing

  datatype AssignmentPermission = AssignmentPermission(allowed: bool, reason: Option<BlockReason>)

  predicate HasColumn(envs: seq<EnvironmentColumn>, id: string)
  {
    exists i :: 0 <= i < |envs| && envs[i].id == id
  }

  /** The first column with this id, as `find` returns it. */
  function FindColumn(envs: seq<EnvironmentColumn>, id: string): (c: Option<EnvironmentColumn>)
    ensures c.None? <==> !HasColumn(envs, id)
    ensures c.Some? ==> c.value.id == id && c.value in envs
  {
    if envs == [] then None
    else if envs[0].id == id then Some(envs[0])
    else
      var rest := FindColumn(envs[1..], id);
      assert HasColumn(envs[1..], id) ==> HasColumn(envs, id) by {
        if HasColumn(envs[1..], id) {
          var i :| 0 <= i < |envs[1..]| && envs[1..][i].id == id;
          assert envs[i + 1].id == id;
        }
      }
      rest
  }

  predicate HasEncrypted(row: Row)
  {
    exists i :: 0 <= i < |row.values| && row.values[i].vtype == Encrypted
  }

  /** `Boolean(value.gitBranch)`: a branch is set and is not the empty string. */
  predicate IsBranchScoped(v: ValueEntry)
  {
    v.gitBranch.Some? && v.gitBranch.value != ""
  }

  predicate HasBranchScoped(row: Row)
  {
    exists i :: 0 <= i < |row.values| && IsBranchScoped(row.values[i])
  }

  /**
   * `canEditAssignment`. A normalised draft carries no capabilities, and
   * reading one then throws; `None` is that exception, which only a custom
   * column or a branch-scoped row reach.
   */
  function CanEditAssignment(d: Draft, row: Row, environmentId: string): (r: Option<AssignmentPermission>)
    ensures r.Some? ==> (r.value.allowed <==> r.value.reason.None?)
    ensures r.None? <==>
      (d.capabilities.None? && HasColumn(d.environments, environmentId) &&
       (FindColumn(d.environments, environmentId).value.kind == CustomKind || (!HasEncrypted(row) && HasBranchScoped(row))))
    ensures r == Some(AssignmentPermission(false, Some(EnvironmentMissing))) <==> !HasColumn(d.environments, environmentId)
    ensures r == Some(AssignmentPermission(false, Some(CustomEnvironmentUnsupported))) <==>
      HasColumn(d.environments, environmentId) && FindColumn(d.environments, environmentId).value.kind == CustomKind
      && d.capabilities.Some? && !d.capabilities.value.supportsCustomEnvironments
    ensures r == Some(AssignmentPermission(false, Some(RowEncrypted))) ==> HasEncrypted(row)
    ensures r == Some(AssignmentPermission(false, Some(BranchUnsupported))) ==>
      !HasEncrypted(row) && HasBranchScoped(row) && !d.capabilities.value.supportsBranchSpecificWrites
    ensures r == Some(AssignmentPermission(true, None)) ==> !HasEncrypted(row) && HasColumn(d.environments, environmentId)
  {
    match FindColumn(d.environments, environmentId)
    case None => Some(AssignmentPermission(false, Some(EnvironmentMissing)))
    case Some(environment) =>
      if environment.kind == CustomKind && d.capabilities.None? then None
      else if environment.kind == CustomKind && !d.capabilities.value.supportsCustomEnvironments then
        Some(AssignmentPermission(false, Some(CustomEnvironmentUnsupported)))
      else if HasEncrypted(row) then Some(AssignmentPermission(false, Some(RowEncrypted)))
      else if HasBranchScoped(row) && d.capabilities.None? then None
      else if HasBranchScoped(row) && !d.capabilities.value.supportsBranchSpecificWrites then
        Some(AssignmentPermission(false, Some(BranchUnsupported)))
      else Some(AssignmentPermission(true, None))
  }

  /** With capabilities present, an existing built-in column on a plain, branchless row may always be edited. */
  lemma PlainBuiltInCellEditable(d: Draft, row: Row, environmentId: string)
    requires d.capabilities.Some?
    requires HasColumn(d.environments, environmentId)
    requires FindColumn(d.environments, environmentId).value.kind == BuiltInKind
    requires !HasEncrypted(row) && !HasBranchScoped(row)
    ensures CanEditAssignment(d, row, environmentId) == Some(AssignmentPermission(true, None))
  {
  }

  /** An encrypted row is blocked on any known column whose custom check passes. */
  lemma EncryptedRowBlocked(d: Draft, row: Row, environmentId: string)
    requires d.capabilities.Some? && d.capabilities.value.supportsCustomEnvironments
    requires HasColumn(d.environments, environmentId) && HasEncrypted(row)
    ensures CanEditAssignment(d, row, environmentId) == Some(AssignmentPermission(false, Some(RowEncrypted)))
  {
  }

  // ---------------------------------------------------------------------
  // setRowAssignment
  // ---------------------------------------------------------------------

  /** `row.assignments[environmentId] === valueId`; a missing entry is `undefined`, equal to neither a string nor null. */
  predicate AlreadyAssigned(row: Row, environmentId: string, valueId: Option<string>)
  {
    environmentId in row.assignments && row.assignments[environmentId] == valueId
  }

  /** The callback's verdict for one row carrying the id: whether it writes the assignment. */
  predicate Writes(row: Row, environmentId: string, valueId: Option<string>)
  {
    (valueId.None? || HasValueId(row.values, valueId.value)) && !AlreadyAssigned(row, environmentId, valueId)
  }

  function AssignedRow(row: Row, environmentId: string, valueId: Option<string>): Row
  {
    if Writes(row, environmentId, valueId) then row.(assignments := row.assignments[environmentId := valueId]) else row
  }

  function SetAssignmentRows(rows: seq<Row>, rowId: string, environmentId: string, valueId: Option<string>): (r: seq<Row>)
    ensures |r| == |rows|
    ensures forall i :: 0 <= i < |rows| ==>
      r[i] == if rows[i].rowId == rowId then AssignedRow(rows[i], environmentId, valueId) else rows[i]
  {
    seq(|rows|, i requires 0 <= i < |rows| => if rows[i].rowId == rowId then AssignedRow(rows[i], environmentId, valueId) else rows[i])
  }

  /** `updated`: some row carrying the id was written. */
  predicate AnyWritten(rows: seq<Row>, rowId: string, environmentId: string, valueId: Option<string>)
  {
    exists i :: 0 <= i < |rows| && rows[i].rowId == rowId && Writes(rows[i], environmentId, valueId)
  }

  method SetRowAssignment(d: Draft, rowId: string, environmentId: string, valueId: Option<string>)
    returns (result: Draft, updated: bool)
    ensures result == d.(rows := SetAssignmentRows(d.rows, rowId, environmentId, valueId))
    ensures updated <==> AnyWritten(d.rows, rowId, environmentId, valueId)
  {
    updated := false;
    var rows: seq<Row> := [];
    for i := 0 to |d.rows|
      invariant rows == SetAssignmentRows(d.rows, rowId, environmentId, valueId)[..i]
      invariant updated <==> AnyWritten(d.rows[..i], rowId, environmentId, valueId)
    {
      var row := d.rows[i];
      SetAssignmentStep(d.rows, rowId, environmentId, valueId, i);
      AnyWrittenStep(d.rows, rowId, environmentId, valueId, i);
      if row.rowId != rowId {
        rows := rows + [row];
      } else if valueId.Some? && !HasValueId(row.values, valueId.value) {
        rows := rows + [row];
      } else if environmentId in row.assignments && row.assignments[environmentId] == valueId {
        rows := rows + [row];
      } else {
        updated := true;
        rows := rows + [row.(assignments := row.assignments[environmentId := valueId])];
      }
    }
    assert d.rows[..|d.rows|] == d.rows;
    assert rows == SetAssignmentRows(d.rows, rowId, environmentId, valueId);
    result := d.(rows := rows);
  }

  lemma SetAssignmentStep(rows: seq<Row>, rowId: string, environmentId: string, valueId: Option<string>, i: nat)
    requires i < |rows|
    ensures SetAssignmentRows(rows, rowId, environmentId, valueId)[..i + 1]
      == SetAssignmentRows(rows, rowId, environmentId, valueId)[..i]
        + [if rows[i].rowId == rowId then AssignedRow(rows[i], environmentId, valueId) else rows[i]]
  {
    var r := SetAssignmentRows(rows, rowId, environmentId, valueId);
    assert r[..i + 1] == r[..i] + [r[i]];
  }

  lemma AnyWrittenStep(rows: seq<Row>, rowId: string, environmentId: string, valueId: Option<string>, i: nat)
    requires i < |rows|
    ensures AnyWritten(rows[..i + 1], rowId, environmentId, valueId)
      <==> AnyWritten(rows[..i], rowId, environmentId, valueId) || (rows[i].rowId == rowId && Writes(rows[i], environmentId, valueId))
  {
    var a, b := rows[..i], rows[..i + 1];
    assert forall j :: 0 <= j < i ==> b[j] == a[j];
    assert b[i] == rows[i];
  }

  /** An assignment is only ever set to null or to a value of the row's own pool. */
  lemma SetAssignmentKeepsValid(d: Draft, rowId: string, environmentId: string, valueId: Option<string>)
    requires DraftAssignmentsValid(d)
    ensures DraftAssignmentsValid(d.(rows := SetAssignmentRows(d.rows, rowId, environmentId, valueId)))
  {
    var rows := SetAssignmentRows(d.rows, rowId, environmentId, valueId);
    forall i | 0 <= i < |rows| ensures RowAssignmentsValid(rows[i]) {
      assert RowAssignmentsValid(d.rows[i]);
    }
  }

  /** A value id missing from the row's pool changes nothing and reports no update. */
  lemma UnknownValueRefused(d: Draft, rowId: string, environmentId: string, v: string)
    requires forall i :: 0 <= i < |d.rows| && d.rows[i].rowId == rowId ==> !HasValueId(d.rows[i].values, v)
    ensures SetAssignmentRows(d.rows, rowId, environmentId, Some(v)) == d.rows
    ensures !AnyWritten(d.rows, rowId, environmentId, Some(v))
  {
  }

  /** Setting the value already assigned changes nothing and reports no update. */
  lemma SameValueNoUpdate(d: Draft, rowId: string, environmentId: string, valueId: Option<string>)
    requires forall i :: 0 <= i < |d.rows| && d.rows[i].rowId == rowId ==> AlreadyAssigned(d.rows[i], environmentId, valueId)
    ensures SetAssignmentRows(d.rows, rowId, environmentId, valueId) == d.rows
    ensures !AnyWritten(d.rows, rowId, environmentId, valueId)
  {
  }

  /**
   * A written row differs from the original only in that environment's
   * entry, which afterwards holds the requested value (null unsets it).
   */
  lemma WriteChangesOnlyThatEntry(row: Row, environmentId: string, valueId: Option<string>)
    requires Writes(row, environmentId, valueId)
    ensures AssignedRow(row, environmentId, valueId).assignments[environmentId] == valueId
    ensures AssignedRow(row, environmentId, valueId).assignments - {environmentId} == row.assignments - {environmentId}
    ensures AssignedRow(row, environmentId, valueId).(assignments := row.assignments) == row
    ensures AssignedRow(row, environmentId, valueId) != row
  {
  }
}
