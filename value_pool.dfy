/**
 * Editing a row's value pool (src/tui/editor/value-pool.ts): adding an
 * empty value under a fresh `value-<n>` id, editing a value's content, and
 * removing a value that no environment is assigned to. Each edit maps over
 * the rows and reports through a flag what it did.
 */
module ValuePool {
  import opened Wrappers
  import opened Strings
  import opened EnvTypes

  // ---------------------------------------------------------------------
  // Fresh value ids
  // ---------------------------------------------------------------------

  /** The serial of an id of the form `value-<digits>`, as `/^value-(\d+)$/` and `parseInt` read it. */
  function SerialOf(id: string): (n: Option<nat>)
    ensures n.Some? <==> StartsWith(id, "value-") && |id| > 6 && AllDigits(id[6..])
  {
    if StartsWith(id, "value-") && |id| > 6 && AllDigits(id[6..]) then Some(ParseDigits(id[6..])) else None
  }

  lemma SerialOfValueId(n: nat)
    ensures SerialOf("value-" + NatToString(n)) == Some(n)
  {
    var id := "value-" + NatToString(n);
    assert id[..6] == "value-";
    assert id[6..] == NatToString(n);
    ParseNatToString(n);
  }

  /** The `reduce` in `nextValueId`: the largest serial among the pool's ids, or 0. */
  function HighestSerial(values: seq<ValueEntry>): nat
  {
    if values == [] then 0
    else
      var h := HighestSerial(values[..|values| - 1]);
      match SerialOf(values[|values| - 1].id)
      case None => h
      case Some(serial) => if serial > h then serial else h
  }

  /** The largest serial bounds every serial of the pool, and is 0 or one of them. */
  lemma {:induction false} HighestSerialBounds(values: seq<ValueEntry>)
    ensures forall i :: 0 <= i < |values| && SerialOf(values[i].id).Some? ==> SerialOf(values[i].id).value <= HighestSerial(values)
    ensures HighestSerial(values) == 0 || exists i :: 0 <= i < |values| && SerialOf(values[i].id) == Some(HighestSerial(values))
    decreases |values|
  {
    if values != [] {
      var prefix := values[..|values| - 1];
      HighestSerialBounds(prefix);
      assert forall i :: 0 <= i < |prefix| ==> prefix[i] == values[i];
    }
  }

  function NextValueId(row: Row): string
  {
    "value-" + NatToString(HighestSerial(row.values) + 1)
  }

  /** The generated id collides with no id already in the row's pool. */
  lemma NextValueIdFresh(row: Row)
    ensures !HasValueId(row.values, NextValueId(row))
  {
    HighestSerialBounds(row.values);
    SerialOfValueId(HighestSerial(row.values) + 1);
  }

  /** Its serial exceeds every existing `value-<n>` serial. */
  lemma NextValueIdExceeds(row: Row)
    ensures SerialOf(NextValueId(row)).Some?
    ensures forall i :: 0 <= i < |row.values| && SerialOf(row.values[i].id).Some? ==>
      SerialOf(row.values[i].id).value < SerialOf(NextValueId(row)).value
  {
    HighestSerialBounds(row.values);
    SerialOfValueId(HighestSerial(row.values) + 1);
  }

  /** `createValueEntry`: an empty plain value with no comment, branch or sources. */
  function CreateValueEntry(row: Row): (v: ValueEntry)
    ensures v.id == NextValueId(row) && !HasValueId(row.values, v.id)
    ensures v.content == "" && v.vtype == Plain && v.comment == None && v.gitBranch == None
    ensures v.readOnlyReason == None && v.sourceRows == []
  {
    NextValueIdFresh(row);
    ValueEntry(NextValueId(row), "", Plain, None, None, None, [])
  }

  // ---------------------------------------------------------------------
  // addValueToDraft
  // ---------------------------------------------------------------------

  function WithNewValue(row: Row): Row
  {
    row.(values := row.values + [CreateValueEntry(row)])
  }

  /** The rows `addValueToDraft` returns. */
  function AddValueRows(rows: seq<Row>, rowId: string): (r: seq<Row>)
    ensures |r| == |rows|
    ensures forall i :: 0 <= i < |rows| ==> r[i] == if rows[i].rowId == rowId then WithNewValue(rows[i]) else rows[i]
  {
    seq(|rows|, i requires 0 <= i < |rows| => if rows[i].rowId == rowId then WithNewValue(rows[i]) else rows[i])
  }

  /** `addedValueId`: the id made for the last matching row, since each match overwrites it. */
  function AddedValueId(rows: seq<Row>, rowId: string): Option<string>
  {
    match LastRow(rows, rowId)
    case None => None
    case Some(row) => Some(NextValueId(row))
  }

  /** No id is reported exactly when no row has the id. */
  lemma AddedValueIdNone(rows: seq<Row>, rowId: string)
    ensures AddedValueId(rows, rowId).None? <==> !HasRow(rows, rowId)
  {
  }

  lemma AddedValueIdStep(rows: seq<Row>, rowId: string, i: nat)
    requires i < |rows|
    ensures AddedValueId(rows[..i + 1], rowId)
      == if rows[i].rowId == rowId then Some(NextValueId(rows[i])) else AddedValueId(rows[..i], rowId)
  {
    assert rows[..i + 1][..i] == rows[..i];
  }

  method AddValueToDraft(draft: Draft, rowId: string) returns (d: Draft, addedValueId: Option<string>)
    ensures d == draft.(rows := AddValueRows(draft.rows, rowId))
    ensures addedValueId == AddedValueId(draft.rows, rowId)
  {
    addedValueId := None;
    var rows: seq<Row> := [];
    for i := 0 to |draft.rows|
      invariant rows == AddValueRows(draft.rows, rowId)[..i]
      invariant addedValueId == AddedValueId(draft.rows[..i], rowId)
    {
      var row := draft.rows[i];
      AddedValueIdStep(draft.rows, rowId, i);
      if row.rowId != rowId {
        rows := rows + [row];
      } else {
        var entry := CreateValueEntry(row);
        addedValueId := Some(entry.id);
        rows := rows + [row.(values := row.values + [entry])];
      }
    }
    assert draft.rows[..|draft.rows|] == draft.rows;
    assert rows == AddValueRows(draft.rows, rowId);
    d := draft.(rows := rows);
  }

  /** The added value is new to its row, so adding one leaves every assignment pointing into its pool. */
  lemma AddValueKeepsAssignmentsValid(draft: Draft, rowId: string)
    requires DraftAssignmentsValid(draft)
    ensures DraftAssignmentsValid(draft.(rows := AddValueRows(draft.rows, rowId)))
  {
    var rows := AddValueRows(draft.rows, rowId);
    forall i | 0 <= i < |rows| ensures RowAssignmentsValid(rows[i]) {
      var old_ := draft.rows[i];
      assert RowAssignmentsValid(old_);
      forall env | env in rows[i].assignments && rows[i].assignments[env].Some?
        ensures HasValueId(rows[i].values, rows[i].assignments[env].value)
      {
        var k :| 0 <= k < |old_.values| && old_.values[k].id == old_.assignments[env].value;
        assert rows[i].values[k] == old_.values[k];
      }
    }
  }

  /** The reported id names the value that was appended to the (last) matching row. */
  lemma AddedValueIdIsAppended(draft: Draft, rowId: string)
    requires HasRow(draft.rows, rowId)
    ensures exists i :: (0 <= i < |draft.rows| && draft.rows[i].rowId == rowId
      && AddValueRows(draft.rows, rowId)[i].values == draft.rows[i].values + [CreateValueEntry(draft.rows[i])]
      && AddedValueId(draft.rows, rowId) == Some(CreateValueEntry(draft.rows[i]).id)
      && !HasValueId(draft.rows[i].values, AddedValueId(draft.rows, rowId).value))
  {
    var row := LastRow(draft.rows, rowId).value;
    var i :| 0 <= i < |draft.rows| && draft.rows[i] == row;
    assert AddValueRows(draft.rows, rowId)[i] == WithNewValue(row);
  }

  // ---------------------------------------------------------------------
  // editValueInDraft
  // ---------------------------------------------------------------------

  function EditedValues(values: seq<ValueEntry>, valueId: string, content: string): (r: seq<ValueEntry>)
    ensures |r| == |values|
    ensures forall k :: 0 <= k < |values| ==> r[k] == if values[k].id == valueId then values[k].(content := content) else values[k]
  {
    seq(|values|, k requires 0 <= k < |values| => if values[k].id == valueId then values[k].(content := content) else values[k])
  }

  function EditValueRows(rows: seq<Row>, rowId: string, valueId: string, content: string): (r: seq<Row>)
    ensures |r| == |rows|
    ensures forall i :: 0 <= i < |rows| ==>
      r[i] == if rows[i].rowId == rowId then rows[i].(values := EditedValues(rows[i].values, valueId, content)) else rows[i]
  {
    seq(|rows|, i requires 0 <= i < |rows| =>
      if rows[i].rowId == rowId then rows[i].(values := EditedValues(rows[i].values, valueId, content)) else rows[i])
  }

  /** `updated`: some row with that id holds a value with that id. */
  predicate EditHits(rows: seq<Row>, rowId: string, valueId: string)
  {
    exists i :: 0 <= i < |rows| && rows[i].rowId == rowId && HasValueId(rows[i].values, valueId)
  }

  /** The inner `values.map` of one matching row, raising the flag on a hit. */
  method EditValues(values: seq<ValueEntry>, valueId: string, content: string, updatedIn: bool)
    returns (edited: seq<ValueEntry>, updated: bool)
    ensures edited == EditedValues(values, valueId, content)
    ensures updated <==> updatedIn || HasValueId(values, valueId)
  {
    updated := updatedIn;
    edited := [];
    for k := 0 to |values|
      invariant |edited| == k
      invariant forall j :: 0 <= j < k ==> edited[j] == if values[j].id == valueId then values[j].(content := content) else values[j]
      invariant updated <==> updatedIn || exists j :: 0 <= j < k && values[j].id == valueId
    {
      var value := values[k];
      if value.id != valueId {
        edited := edited + [value];
      } else {
        updated := true;
        edited := edited + [value.(content := content)];
      }
    }
  }

  method EditValueInDraft(draft: Draft, rowId: string, valueId: string, content: string) returns (d: Draft, updated: bool)
    ensures d == draft.(rows := EditValueRows(draft.rows, rowId, valueId, content))
    ensures updated <==> EditHits(draft.rows, rowId, valueId)
  {
    updated := false;
    var rows: seq<Row> := [];
    for i := 0 to |draft.rows|
      invariant |rows| == i
      invariant forall j :: 0 <= j < i ==>
        rows[j] == (if draft.rows[j].rowId == rowId then draft.rows[j].(values := EditedValues(draft.rows[j].values, valueId, content)) else draft.rows[j])
      invariant updated <==> EditHits(draft.rows[..i], rowId, valueId)
    {
      var row := draft.rows[i];
      assert forall j :: 0 <= j < i ==> draft.rows[..i + 1][j] == draft.rows[..i][j];
      if row.rowId != rowId {
        rows := rows + [row];
      } else {
        var values;
        values, updated := EditValues(row.values, valueId, content, updated);
        rows := rows + [row.(values := values)];
      }
    }
    assert draft.rows[..|draft.rows|] == draft.rows;
    d := draft.(rows := rows);
  }

  /** Editing keeps every value id, so every assignment still points into its pool. */
  lemma EditValueKeepsAssignmentsValid(draft: Draft, rowId: string, valueId: string, content: string)
    requires DraftAssignmentsValid(draft)
    ensures DraftAssignmentsValid(draft.(rows := EditValueRows(draft.rows, rowId, valueId, content)))
  {
    var rows := EditValueRows(draft.rows, rowId, valueId, content);
    forall i | 0 <= i < |rows| ensures RowAssignmentsValid(rows[i]) {
      var old_ := draft.rows[i];
      assert RowAssignmentsValid(old_);
      forall env | env in rows[i].assignments && rows[i].assignments[env].Some?
        ensures HasValueId(rows[i].values, rows[i].assignments[env].value)
      {
        var k :| 0 <= k < |old_.values| && old_.values[k].id == old_.assignments[env].value;
        assert rows[i].values[k].id == old_.values[k].id;
      }
    }
  }

  /** Only the content of the targeted value changes: every id, and every other field, is kept. */
  lemma EditChangesOnlyContent(draft: Draft, rowId: string, valueId: string, content: string, i: nat, k: nat)
    requires i < |draft.rows| && k < |draft.rows[i].values|
    ensures EditValueRows(draft.rows, rowId, valueId, content)[i].values[k].(content := draft.rows[i].values[k].content)
      == draft.rows[i].values[k]
    ensures EditValueRows(draft.rows, rowId, valueId, content)[i].values[k].content
      == if draft.rows[i].rowId == rowId && draft.rows[i].values[k].id == valueId then content else draft.rows[i].values[k].content
  {
  }

  // ---------------------------------------------------------------------
  // removeValueFromDraft
  // ---------------------------------------------------------------------

  datatype RemoveReason = ReasonAssigned | ReasonNotFound

  datatype RemoveValueResult = RemoveValueResult(draft: Draft, removed: bool, reason: Option<RemoveReason>)

  /** What the callback does to one row with the matching id. */
  datatype RowRemoval = ValueMissing | ValueAssigned | ValueRemovable

  /** Some environment of the row is assigned this value id (`Object.values(...).includes`). */
  predicate IsAssigned(row: Row, valueId: string)
  {
    exists env :: env in row.assignments && row.assignments[env] == Some(valueId)
  }

  function RemovalIn(row: Row, valueId: string): RowRemoval
  {
    if !HasValueId(row.values, valueId) then ValueMissing
    else if IsAssigned(row, valueId) then ValueAssigned
    else ValueRemovable
  }

  /** `values.filter(item => item.id !== valueId)`. */
  function WithoutValue(values: seq<ValueEntry>, valueId: string): (r: seq<ValueEntry>)
    ensures forall v :: v in r <==> v in values && v.id != valueId
    ensures !HasValueId(r, valueId)
  {
    if values == [] then []
    else (if values[0].id == valueId then [] else [values[0]]) + WithoutValue(values[1..], valueId)
  }

  function RemoveFromRow(row: Row, valueId: string): Row
  {
    if RemovalIn(row, valueId) == ValueRemovable then row.(values := WithoutValue(row.values, valueId)) else row
  }

  function RemoveValueRows(rows: seq<Row>, rowId: string, valueId: string): (r: seq<Row>)
    ensures |r| == |rows|
    ensures forall i :: 0 <= i < |rows| ==> r[i] == if rows[i].rowId == rowId then RemoveFromRow(rows[i], valueId) else rows[i]
  {
    seq(|rows|, i requires 0 <= i < |rows| => if rows[i].rowId == rowId then RemoveFromRow(rows[i], valueId) else rows[i])
  }

  /** `removed`: some matching row had the value unassigned, and lost it. */
  predicate RemovedAny(rows: seq<Row>, rowId: string, valueId: string)
  {
    exists i :: 0 <= i < |rows| && rows[i].rowId == rowId && RemovalIn(rows[i], valueId) == ValueRemovable
  }

  /** `reason`: "not_found" until a matching row holds the value; then the last such row decides. */
  function RemovalReason(rows: seq<Row>, rowId: string, valueId: string): Option<RemoveReason>
  {
    if rows == [] then Some(ReasonNotFound)
    else
      var row := rows[|rows| - 1];
      if row.rowId == rowId && RemovalIn(row, valueId) != ValueMissing
      then (if RemovalIn(row, valueId) == ValueAssigned then Some(ReasonAssigned) else None)
      else RemovalReason(rows[..|rows| - 1], rowId, valueId)
  }

  function RemoveValue(draft: Draft, rowId: string, valueId: string): RemoveValueResult
  {
    RemoveValueResult(
      draft.(rows := RemoveValueRows(draft.rows, rowId, valueId)),
      RemovedAny(draft.rows, rowId, valueId),
      RemovalReason(draft.rows, rowId, valueId))
  }

  lemma RemovalStep(rows: seq<Row>, rowId: string, valueId: string, i: nat)
    requires i < |rows|
    ensures RemovedAny(rows[..i + 1], rowId, valueId)
      <==> RemovedAny(rows[..i], rowId, valueId) || (rows[i].rowId == rowId && RemovalIn(rows[i], valueId) == ValueRemovable)
    ensures RemovalReason(rows[..i + 1], rowId, valueId)
      == if rows[i].rowId == rowId && RemovalIn(rows[i], valueId) != ValueMissing
         then (if RemovalIn(rows[i], valueId) == ValueAssigned then Some(ReasonAssigned) else None)
         else RemovalReason(rows[..i], rowId, valueId)
  {
    assert rows[..i + 1][..i] == rows[..i];
    assert forall j :: 0 <= j < i ==> rows[..i + 1][j] == rows[..i][j];
  }

  method RemoveValueFromDraft(draft: Draft, rowId: string, valueId: string) returns (result: RemoveValueResult)
    ensures result == RemoveValue(draft, rowId, valueId)
  {
    var removed := false;
    var reason := Some(ReasonNotFound);
    var rows: seq<Row> := [];
    for i := 0 to |draft.rows|
      invariant RemovalSoFar(draft.rows, rowId, valueId, i, rows, removed, reason)
    {
      rows, removed, reason := RemovalTurn(draft.rows, rowId, valueId, i, rows, removed, reason);
    }
    assert draft.rows[..|draft.rows|] == draft.rows;
    result := RemoveValueResult(draft.(rows := rows), removed, reason);
  }

  /** The loop's state after the first `i` rows. */
  predicate RemovalSoFar(draftRows: seq<Row>, rowId: string, valueId: string, i: nat,
    rows: seq<Row>, removed: bool, reason: Option<RemoveReason>)
    requires i <= |draftRows|
  {
    && rows == RemoveValueRows(draftRows[..i], rowId, valueId)
    && (removed <==> RemovedAny(draftRows[..i], rowId, valueId))
    && reason == RemovalReason(draftRows[..i], rowId, valueId)
  }

  /** One turn of that loop: row `i` is kept, or loses the value, and the outcome is updated. */
  method RemovalTurn(draftRows: seq<Row>, rowId: string, valueId: string, i: nat,
    rows: seq<Row>, removed: bool, reason: Option<RemoveReason>)
    returns (rows': seq<Row>, removed': bool, reason': Option<RemoveReason>)
    requires i < |draftRows| && RemovalSoFar(draftRows, rowId, valueId, i, rows, removed, reason)
    ensures RemovalSoFar(draftRows, rowId, valueId, i + 1, rows', removed', reason')
  {
    var row := draftRows[i];
    RemovalStep(draftRows, rowId, valueId, i);
    RemoveValueRowsStep(draftRows, rowId, valueId, i);
    var kept := row;
    removed', reason' := removed, reason;
    if row.rowId != rowId {
    } else if !HasValueId(row.values, valueId) {
    } else if IsAssigned(row, valueId) {
      reason' := Some(ReasonAssigned);
    } else {
      removed' := true;
      reason' := None;
      kept := row.(values := WithoutValue(row.values, valueId));
    }
    rows' := rows + [kept];
  }

  lemma RemoveValueRowsStep(draftRows: seq<Row>, rowId: string, valueId: string, i: nat)
    requires i < |draftRows|
    ensures RemoveValueRows(draftRows[..i + 1], rowId, valueId) == RemoveValueRows(draftRows[..i], rowId, valueId)
      + [if draftRows[i].rowId == rowId then RemoveFromRow(draftRows[i], valueId) else draftRows[i]]
  {
    var a := RemoveValueRows(draftRows[..i + 1], rowId, valueId);
    var b := RemoveValueRows(draftRows[..i], rowId, valueId);
    assert forall j :: 0 <= j < i ==> a[j] == b[j];
  }

  /** A removed value was assigned nowhere in its row, so no assignment is left dangling. */
  lemma RemoveValueKeepsAssignmentsValid(draft: Draft, rowId: string, valueId: string)
    requires DraftAssignmentsValid(draft)
    ensures DraftAssignmentsValid(RemoveValue(draft, rowId, valueId).draft)
  {
    var rows := RemoveValueRows(draft.rows, rowId, valueId);
    forall i | 0 <= i < |rows| ensures RowAssignmentsValid(rows[i]) {
      var old_ := draft.rows[i];
      assert RowAssignmentsValid(old_);
      if old_.rowId == rowId && RemovalIn(old_, valueId) == ValueRemovable {
        forall env | env in rows[i].assignments && rows[i].assignments[env].Some?
          ensures HasValueId(rows[i].values, rows[i].assignments[env].value)
        {
          var id := old_.assignments[env].value;
          var k :| 0 <= k < |old_.values| && old_.values[k].id == id;
          assert id != valueId;
          assert old_.values[k] in rows[i].values;
          var m :| 0 <= m < |rows[i].values| && rows[i].values[m] == old_.values[k];
        }
      }
    }
  }

  /**
   * For a draft whose row ids are distinct: a missing row or value is
   * "not_found", an assigned value is refused as "assigned", and in both
   * cases the rows are unchanged; otherwise exactly that value is dropped
   * and the reason is null.
   */
  lemma RemoveValueOutcome(draft: Draft, rowId: string, valueId: string)
    requires DistinctRowIds(draft.rows)
    ensures var r := RemoveValue(draft, rowId, valueId);
      && (FindRow(draft.rows, rowId).None? ==> !r.removed && r.reason == Some(ReasonNotFound) && r.draft == draft)
      && (FindRow(draft.rows, rowId).Some? ==>
           var row := FindRow(draft.rows, rowId).value;
           && (RemovalIn(row, valueId) == ValueMissing ==> !r.removed && r.reason == Some(ReasonNotFound) && r.draft == draft)
           && (RemovalIn(row, valueId) == ValueAssigned ==> !r.removed && r.reason == Some(ReasonAssigned) && r.draft == draft)
           && (RemovalIn(row, valueId) == ValueRemovable ==> r.removed && r.reason == None))
  {
    var r := RemoveValue(draft, rowId, valueId);
    var f := FindRow(draft.rows, rowId);
    FindIsLastWhenDistinct(draft.rows, rowId);
    ReasonDistinct(draft.rows, rowId, valueId);
    if f.None? || RemovalIn(f.value, valueId) != ValueRemovable {
      assert r.draft.rows == draft.rows;
    } else {
      var j :| 0 <= j < |draft.rows| && draft.rows[j] == f.value;
      assert RemovedAny(draft.rows, rowId, valueId);
    }
  }

  /** The reason a row's removal outcome leaves when it is the only matching row. */
  function ReasonFor(outcome: RowRemoval): Option<RemoveReason>
  {
    match outcome
    case ValueMissing => Some(ReasonNotFound)
    case ValueAssigned => Some(ReasonAssigned)
    case ValueRemovable => None
  }

  lemma {:induction false} ReasonNoMatch(rows: seq<Row>, rowId: string, valueId: string)
    requires !HasRow(rows, rowId)
    ensures RemovalReason(rows, rowId, valueId) == Some(ReasonNotFound)
    decreases |rows|
  {
    if rows != [] {
      var prefix := rows[..|rows| - 1];
      assert !HasRow(prefix, rowId) by {
        assert forall j :: 0 <= j < |prefix| ==> prefix[j] == rows[j];
      }
      ReasonNoMatch(prefix, rowId, valueId);
    }
  }

  /** With distinct row ids, the reason is read off the single matching row. */
  lemma {:induction false} ReasonDistinct(rows: seq<Row>, rowId: string, valueId: string)
    requires DistinctRowIds(rows)
    ensures RemovalReason(rows, rowId, valueId) ==
      match LastRow(rows, rowId)
      case None => Some(ReasonNotFound)
      case Some(row) => ReasonFor(RemovalIn(row, valueId))
    decreases |rows|
  {
    if rows != [] {
      var prefix := rows[..|rows| - 1];
      assert forall j :: 0 <= j < |prefix| ==> prefix[j] == rows[j];
      if rows[|rows| - 1].rowId == rowId {
        ReasonNoMatch(prefix, rowId, valueId);
      } else {
        ReasonDistinct(prefix, rowId, valueId);
      }
    } else {
      ReasonNoMatch(rows, rowId, valueId);
    }
  }

  /** A successful removal keeps every other value, in order. */
  lemma RemoveKeepsOtherValues(row: Row, valueId: string)
    requires RemovalIn(row, valueId) == ValueRemovable
    ensures forall v :: v in RemoveFromRow(row, valueId).values <==> v in row.values && v.id != valueId
    ensures |RemoveFromRow(row, valueId).values| < |row.values|
  {
    WithoutValueShorter(row.values, valueId);
  }

  lemma {:induction false} WithoutValueShorter(values: seq<ValueEntry>, valueId: string)
    requires HasValueId(values, valueId)
    ensures |WithoutValue(values, valueId)| < |values|
    decreases |values|
  {
    if values[0].id != valueId {
      assert HasValueId(values[1..], valueId) by {
        var k :| 0 <= k < |values| && values[k].id == valueId;
        assert values[1..][k - 1] == values[k];
      }
      WithoutValueShorter(values[1..], valueId);
    } else {
      WithoutValueLength(values[1..], valueId);
    }
  }

  lemma {:induction false} WithoutValueLength(values: seq<ValueEntry>, valueId: string)
    ensures |WithoutValue(values, valueId)| <= |values|
    decreases |values|
  {
    if values != [] {
      WithoutValueLength(values[1..], valueId);
    }
  }
}
