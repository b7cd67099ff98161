/**
 * The diff of a baseline draft against an edited draft
 * (src/lib/env-model/change-detector.ts): creates for rows only the draft
 * has, deletes for rows only the baseline has, and rename, update and
 * retarget changes for rows both have.
 */
module ChangeDetector {
  import opened Wrappers
  import opened Strings
  import opened EnvTypes

  /** The fields of a value entry the values fingerprint serialises (not its id or sourceRows). */
  datatype ValueView = ValueView(
    content: string,
    vtype: ValueType,
    comment: Option<string>,
    gitBranch: Option<string>,
    readOnlyReason: Option<ReadOnlyReason>)

  function ViewOf(v: ValueEntry): ValueView
  {
    ValueView(v.content, v.vtype, v.comment, v.gitBranch, v.readOnlyReason)
  }

  /** `rowValuesFingerprint`, as the list it serialises. */
  function ValuesFingerprint(row: Row): (f: seq<ValueView>)
    ensures |f| == |row.values|
    ensures forall i :: 0 <= i < |f| ==> f[i] == ViewOf(row.values[i])
  {
    seq(|row.values|, i requires 0 <= i < |row.values| => ViewOf(row.values[i]))
  }

  /** Renumbering value ids or changing sourceRows leaves the fingerprint alone. */
  lemma FingerprintIgnoresIdsAndSources(a: Row, b: Row)
    requires |a.values| == |b.values|
    requires forall i :: 0 <= i < |a.values| ==> ViewOf(a.values[i]) == ViewOf(b.values[i])
    ensures ValuesFingerprint(a) == ValuesFingerprint(b)
  {
  }

  /** The Map `new Map(rows.map(r => [r.rowId, r]))`: each id to the last row carrying it. */
  function RowIndex(rows: seq<Row>): map<string, Row>
  {
    if rows == [] then map[]
    else RowIndex(rows[..|rows| - 1])[rows[|rows| - 1].rowId := rows[|rows| - 1]]
  }

  /** Looking an id up in the index finds the last row with that id, and only ids of rows are there. */
  lemma {:induction false} RowIndexLookup(rows: seq<Row>, id: string)
    ensures id in RowIndex(rows) <==> LastRow(rows, id).Some?
    ensures id in RowIndex(rows) ==> RowIndex(rows)[id] == LastRow(rows, id).value
    decreases |rows|
  {
    if rows != [] {
      RowIndexLookup(rows[..|rows| - 1], id);
    }
  }

  function CreateChangeFor(row: Row): Change
  {
    Change("create:" + row.rowId, CreateChange, row.rowId, "Create key " + row.key)
  }

  function DeleteChangeFor(row: Row): Change
  {
    Change("delete:" + row.rowId, DeleteChange, row.rowId, "Delete key " + row.key)
  }

  /** The first pass: a create per draft row whose id the baseline lacks, in draft order. */
  function Creates(draftRows: seq<Row>, baselineRows: seq<Row>): seq<Change>
  {
    if draftRows == [] then []
    else
      var row := draftRows[|draftRows| - 1];
      Creates(draftRows[..|draftRows| - 1], baselineRows) + (if HasRow(baselineRows, row.rowId) then [] else [CreateChangeFor(row)])
  }

  /** The second pass: a delete per baseline row whose id the draft lacks, in baseline order. */
  function Deletes(baselineRows: seq<Row>, draftRows: seq<Row>): seq<Change>
  {
    if baselineRows == [] then []
    else
      var row := baselineRows[|baselineRows| - 1];
      Deletes(baselineRows[..|baselineRows| - 1], draftRows) + (if HasRow(draftRows, row.rowId) then [] else [DeleteChangeFor(row)])
  }

  /** The two values fingerprints are equal. */
  predicate SameValueFingerprint(before: Row, row: Row)
  {
    ValuesFingerprint(before) == ValuesFingerprint(row)
  }

  /** The two assignments fingerprints are equal. */
  predicate SameAssignments(before: Row, row: Row)
  {
    before.assignments == row.assignments
  }

  /** The changes for one draft row against the baseline row of the same id. */
  function RowChanges(before: Row, row: Row): seq<Change>
  {
    (if before.key != row.key
     then [Change("rename:" + row.rowId, RenameChange, row.rowId, "Rename key " + before.key + " -> " + row.key)]
     else [])
    + (if !SameValueFingerprint(before, row)
       then [Change("update:" + row.rowId, UpdateChange, row.rowId, "Update value pool for " + row.key)]
       else [])
    + (if !SameAssignments(before, row)
       then [Change("retarget:" + row.rowId, RetargetChange, row.rowId, "Update environment assignments for " + row.key)]
       else [])
  }

  /** The third pass, over draft rows the baseline also has. */
  function Shared(draftRows: seq<Row>, baselineRows: seq<Row>): seq<Change>
  {
    if draftRows == [] then []
    else
      var row := draftRows[|draftRows| - 1];
      Shared(draftRows[..|draftRows| - 1], baselineRows) + SharedOfRow(baselineRows, row)
  }

  /** The changes one draft row contributes to the third pass: none when the baseline lacks it. */
  function SharedOfRow(baselineRows: seq<Row>, row: Row): seq<Change>
  {
    match LastRow(baselineRows, row.rowId)
    case None => []
    case Some(before) => RowChanges(before, row)
  }

  /** What `detectDraftChanges` returns: creates, then deletes, then per-row changes. */
  function DetectedChanges(baseline: Draft, draft: Draft): seq<Change>
  {
    Creates(draft.rows, baseline.rows) + Deletes(baseline.rows, draft.rows) + Shared(draft.rows, baseline.rows)
  }

  // ---------------------------------------------------------------------
  // Properties
  // ---------------------------------------------------------------------

  /** Each create names a draft row the baseline lacks, and every such draft row has one. */
  lemma {:induction false} CreatesExact(draftRows: seq<Row>, baselineRows: seq<Row>)
    ensures forall c :: c in Creates(draftRows, baselineRows) ==>
      c.kind == CreateChange && c.changeId == "create:" + c.rowId && !HasRow(baselineRows, c.rowId) && HasRow(draftRows, c.rowId)
    ensures forall i :: 0 <= i < |draftRows| && !HasRow(baselineRows, draftRows[i].rowId) ==>
      CreateChangeFor(draftRows[i]) in Creates(draftRows, baselineRows)
    decreases |draftRows|
  {
    if draftRows != [] {
      var prefix := draftRows[..|draftRows| - 1];
      CreatesExact(prefix, baselineRows);
      forall c | c in Creates(prefix, baselineRows) ensures HasRow(draftRows, c.rowId) {
        var k :| 0 <= k < |prefix| && prefix[k].rowId == c.rowId;
        assert draftRows[k] == prefix[k];
      }
      forall i | 0 <= i < |draftRows| - 1 ensures draftRows[i] == prefix[i] {
      }
    }
  }

  /** Each delete names a baseline row the draft lacks, and every such baseline row has one. */
  lemma {:induction false} DeletesExact(baselineRows: seq<Row>, draftRows: seq<Row>)
    ensures forall c :: c in Deletes(baselineRows, draftRows) ==>
      c.kind == DeleteChange && c.changeId == "delete:" + c.rowId && !HasRow(draftRows, c.rowId) && HasRow(baselineRows, c.rowId)
    ensures forall i :: 0 <= i < |baselineRows| && !HasRow(draftRows, baselineRows[i].rowId) ==>
      DeleteChangeFor(baselineRows[i]) in Deletes(baselineRows, draftRows)
    decreases |baselineRows|
  {
    if baselineRows != [] {
      var prefix := baselineRows[..|baselineRows| - 1];
      DeletesExact(prefix, draftRows);
      forall c | c in Deletes(prefix, draftRows) ensures HasRow(baselineRows, c.rowId) {
        var k :| 0 <= k < |prefix| && prefix[k].rowId == c.rowId;
        assert baselineRows[k] == prefix[k];
      }
      forall i | 0 <= i < |baselineRows| - 1 ensures baselineRows[i] == prefix[i] {
      }
    }
  }

  /**
   * For a row both sides have: a rename exactly when the keys differ, an
   * update exactly when the value fingerprints differ, a retarget exactly
   * when the assignments differ, in that order and nothing else.
   */
  lemma RowChangesIff(before: Row, row: Row)
    ensures (exists c :: c in RowChanges(before, row) && c.kind == RenameChange) <==> before.key != row.key
    ensures (exists c :: c in RowChanges(before, row) && c.kind == UpdateChange) <==> ValuesFingerprint(before) != ValuesFingerprint(row)
    ensures (exists c :: c in RowChanges(before, row) && c.kind == RetargetChange) <==> before.assignments != row.assignments
    ensures forall c :: c in RowChanges(before, row) ==> c.rowId == row.rowId
    ensures RowChanges(before, row) == [] <==> before.key == row.key && ValuesFingerprint(before) == ValuesFingerprint(row) && before.assignments == row.assignments
  {
    var r := RowChanges(before, row);
    if before.key != row.key {
      assert r[0].kind == RenameChange;
    }
    if ValuesFingerprint(before) != ValuesFingerprint(row) {
      var k := if before.key != row.key then 1 else 0;
      assert r[k].kind == UpdateChange;
    }
    if before.assignments != row.assignments {
      assert r[|r| - 1].kind == RetargetChange;
    }
  }

  lemma {:induction false} CreatesOfSelf(rows: seq<Row>, all: seq<Row>)
    requires forall i :: 0 <= i < |rows| ==> rows[i] in all
    ensures Creates(rows, all) == []
    decreases |rows|
  {
    if rows != [] {
      var row := rows[|rows| - 1];
      assert row in all;
      CreatesOfSelf(rows[..|rows| - 1], all);
    }
  }

  lemma {:induction false} DeletesOfSelf(rows: seq<Row>, all: seq<Row>)
    requires forall i :: 0 <= i < |rows| ==> rows[i] in all
    ensures Deletes(rows, all) == []
    decreases |rows|
  {
    if rows != [] {
      var row := rows[|rows| - 1];
      assert row in all;
      DeletesOfSelf(rows[..|rows| - 1], all);
    }
  }

  lemma {:induction false} SharedOfSelf(rows: seq<Row>, all: seq<Row>)
    requires DistinctRowIds(all)
    requires forall i :: 0 <= i < |rows| ==> rows[i] in all
    ensures Shared(rows, all) == []
    decreases |rows|
  {
    if rows != [] {
      var row := rows[|rows| - 1];
      SharedOfSelf(rows[..|rows| - 1], all);
      var before := LastRow(all, row.rowId).value;
      var i :| 0 <= i < |all| && all[i] == before;
      var j :| 0 <= j < |all| && all[j] == row;
      assert before == row;
      RowChangesIff(before, row);
    }
  }

  /** Draft rows taken from the front of a baseline with distinct ids show no per-row changes. */
  lemma SharedOfPrefix(rows: seq<Row>, n: nat)
    requires DistinctRowIds(rows) && n <= |rows|
    ensures Shared(rows[..n], rows) == []
  {
    var prefix := rows[..n];
    forall j | 0 <= j < |prefix| ensures prefix[j] in rows {
      assert prefix[j] == rows[j];
    }
    SharedOfSelf(prefix, rows);
  }

  /** Draft rows taken from the back of a baseline with distinct ids show no per-row changes. */
  lemma SharedOfSuffix(rows: seq<Row>, n: nat)
    requires DistinctRowIds(rows) && n <= |rows|
    ensures Shared(rows[n..], rows) == []
  {
    var suffix := rows[n..];
    forall j | 0 <= j < |suffix| ensures suffix[j] in rows {
      assert suffix[j] == rows[n + j];
    }
    SharedOfSelf(suffix, rows);
  }

  /** A single draft row is compared with the baseline row of its id. */
  lemma SharedOfOne(row: Row, before: Row, all: seq<Row>)
    requires LastRow(all, row.rowId) == Some(before)
    ensures Shared([row], all) == RowChanges(before, row)
  {
    SharedLast([row], all);
    assert [row][..0] == [];
  }

  /** The per-row changes of two blocks of draft rows are those of each block, in turn. */
  lemma {:induction false} SharedAppend(a: seq<Row>, b: seq<Row>, all: seq<Row>)
    ensures Shared(a + b, all) == Shared(a, all) + Shared(b, all)
    decreases |b|
  {
    if b == [] {
      assert a + b == a;
    } else {
      var b' := b[..|b| - 1];
      AppendInit(a, b);
      SharedLast(a + b, all);
      SharedLast(b, all);
      SharedAppend(a, b', all);
      var row := b[|b| - 1];
      ConcatAssoc(Shared(a, all), Shared(b', all),
        match LastRow(all, row.rowId) case None => [] case Some(before) => RowChanges(before, row));
    }
  }

  /** One unfolding of `Shared`: the last draft row's changes come last. */
  lemma SharedLast(rows: seq<Row>, all: seq<Row>)
    requires rows != []
    ensures Shared(rows, all) == Shared(rows[..|rows| - 1], all) + SharedOfRow(all, rows[|rows| - 1])
  {
  }

  /** The last element of a + b is b's, and the rest is a followed by the rest of b. */
  lemma AppendInit<T>(a: seq<T>, b: seq<T>)
    requires b != []
    ensures (a + b)[..|a + b| - 1] == a + b[..|b| - 1]
    ensures (a + b)[|a + b| - 1] == b[|b| - 1]
  {
  }

  /** A draft with distinct row ids compared with itself yields no changes. */
  lemma NoChangesForIdenticalDrafts(baseline: Draft, draft: Draft)
    requires baseline.rows == draft.rows
    requires DistinctRowIds(draft.rows)
    ensures DetectedChanges(baseline, draft) == []
  {
    CreatesOfSelf(draft.rows, baseline.rows);
    DeletesOfSelf(baseline.rows, draft.rows);
    SharedOfSelf(draft.rows, baseline.rows);
  }

  /**
   * Distinct row ids are needed: with two rows of one id the Map keeps the
   * last, so the first is compared with it and a rename is reported.
   */
  lemma DuplicateRowIdsReportChanges(a: Row, b: Row, d: Draft)
    requires a.rowId == b.rowId && a.key != b.key
    requires d.rows == [a, b]
    ensures DetectedChanges(d, d) != []
  {
    assert [a, b][..1] == [a];
    assert LastRow([a, b], a.rowId) == Some(b);
    assert Shared([a], [a, b]) == RowChanges(b, a);
    RowChangesIff(b, a);
  }

  // ---------------------------------------------------------------------
  // The procedure
  // ---------------------------------------------------------------------

  lemma CreatesStep(rows: seq<Row>, baselineRows: seq<Row>, i: nat)
    requires i < |rows|
    ensures Creates(rows[..i + 1], baselineRows)
      == Creates(rows[..i], baselineRows) + (if HasRow(baselineRows, rows[i].rowId) then [] else [CreateChangeFor(rows[i])])
  {
    assert rows[..i + 1][..i] == rows[..i];
  }

  lemma DeletesStep(rows: seq<Row>, draftRows: seq<Row>, i: nat)
    requires i < |rows|
    ensures Deletes(rows[..i + 1], draftRows)
      == Deletes(rows[..i], draftRows) + (if HasRow(draftRows, rows[i].rowId) then [] else [DeleteChangeFor(rows[i])])
  {
    assert rows[..i + 1][..i] == rows[..i];
  }

  lemma SharedStep(rows: seq<Row>, baselineRows: seq<Row>, i: nat)
    requires i < |rows|
    ensures Shared(rows[..i + 1], baselineRows)
      == Shared(rows[..i], baselineRows) + SharedOfRow(baselineRows, rows[i])
  {
    assert rows[..i + 1][..i] == rows[..i];
  }

  /** The first loop of `detectDraftChanges`. */
  method AppendCreates(changes: seq<Change>, draftRows: seq<Row>, baseline: seq<Row>, baselineIndex: map<string, Row>)
    returns (out: seq<Change>)
    requires baselineIndex == RowIndex(baseline)
    ensures out == changes + Creates(draftRows, baseline)
  {
    out := changes;
    for i := 0 to |draftRows|
      invariant out == changes + Creates(draftRows[..i], baseline)
    {
      CreatesStep(draftRows, baseline, i);
      var row := draftRows[i];
      RowIndexLookup(baseline, row.rowId);
      if row.rowId !in baselineIndex {
        out := out + [CreateChangeFor(row)];
      }
    }
    assert draftRows[..|draftRows|] == draftRows;
  }

  /** The second loop of `detectDraftChanges`. */
  method AppendDeletes(changes: seq<Change>, baselineRows: seq<Row>, draft: seq<Row>, draftIndex: map<string, Row>)
    returns (out: seq<Change>)
    requires draftIndex == RowIndex(draft)
    ensures out == changes + Deletes(baselineRows, draft)
  {
    out := changes;
    for i := 0 to |baselineRows|
      invariant out == changes + Deletes(baselineRows[..i], draft)
    {
      DeletesStep(baselineRows, draft, i);
      var row := baselineRows[i];
      RowIndexLookup(draft, row.rowId);
      if row.rowId !in draftIndex {
        out := out + [DeleteChangeFor(row)];
      }
    }
    assert baselineRows[..|baselineRows|] == baselineRows;
  }

  /** The body of the third loop for one row both sides have. */
  method CompareRow(before: Row, row: Row) returns (rowChanges: seq<Change>)
    ensures rowChanges == RowChanges(before, row)
  {
    rowChanges := [];
    if before.key != row.key {
      rowChanges := rowChanges + [Change("rename:" + row.rowId, RenameChange, row.rowId, "Rename key " + before.key + " -> " + row.key)];
    }
    var valuesChanged := ValuesFingerprint(before) != ValuesFingerprint(row);
    var assignmentsChanged := before.assignments != row.assignments;
    if valuesChanged {
      rowChanges := rowChanges + [Change("update:" + row.rowId, UpdateChange, row.rowId, "Update value pool for " + row.key)];
    }
    if assignmentsChanged {
      rowChanges := rowChanges + [Change("retarget:" + row.rowId, RetargetChange, row.rowId, "Update environment assignments for " + row.key)];
    }
  }

  /** The third loop of `detectDraftChanges`. */
  method AppendShared(changes: seq<Change>, draftRows: seq<Row>, baseline: seq<Row>, baselineIndex: map<string, Row>)
    returns (out: seq<Change>)
    requires baselineIndex == RowIndex(baseline)
    ensures out == changes + Shared(draftRows, baseline)
  {
    out := changes;
    for i := 0 to |draftRows|
      invariant out == changes + Shared(draftRows[..i], baseline)
    {
      out := SharedTurn(out, changes, draftRows, baseline, baselineIndex, i);
    }
    assert draftRows[..|draftRows|] == draftRows;
  }

  /** One turn of the third loop: the row's changes when the baseline has it, else none. */
  method SharedTurn(out: seq<Change>, changes: seq<Change>, draftRows: seq<Row>, baseline: seq<Row>,
    baselineIndex: map<string, Row>, i: nat) returns (out': seq<Change>)
    requires baselineIndex == RowIndex(baseline)
    requires i < |draftRows| && out == changes + Shared(draftRows[..i], baseline)
    ensures out' == changes + Shared(draftRows[..i + 1], baseline)
  {
    SharedStep(draftRows, baseline, i);
    var rowChanges := RowShared(draftRows[i], baseline, baselineIndex);
    ConcatAssoc(changes, Shared(draftRows[..i], baseline), rowChanges);
    out' := out + rowChanges;
  }

  /** The changes of one draft row, looked up through the baseline index. */
  method RowShared(row: Row, baseline: seq<Row>, baselineIndex: map<string, Row>) returns (rowChanges: seq<Change>)
    requires baselineIndex == RowIndex(baseline)
    ensures rowChanges == SharedOfRow(baseline, row)
  {
    RowIndexLookup(baseline, row.rowId);
    rowChanges := [];
    if row.rowId in baselineIndex {
      rowChanges := CompareRow(baselineIndex[row.rowId], row);
    }
  }

  /** `detectDraftChanges`: three passes pushing onto one list. */
  method DetectDraftChanges(baseline: Draft, draft: Draft) returns (changes: seq<Change>)
    ensures changes == DetectedChanges(baseline, draft)
  {
    var baselineRows := RowIndex(baseline.rows);
    var draftRows := RowIndex(draft.rows);
    changes := AppendCreates([], draft.rows, baseline.rows, baselineRows);
    assert changes == Creates(draft.rows, baseline.rows);
    changes := AppendDeletes(changes, baseline.rows, draft.rows, draftRows);
    changes := AppendShared(changes, draft.rows, baseline.rows, baselineRows);
  }
}
